/**
 * The file filters `should_exclude` (main.cpp:204-262) and
 * `should_include_suffix` (main.cpp:264-302). Each pattern of the
 * `;`-separated list is tried as a regular expression; a pattern that does
 * not compile falls back to plain string comparison.
 */
module Rules {
  import opened Base
  import opened Paths
  import opened Config
  import Split

  /** The `std::regex` library, which is not part of this model:
      `compiles(pattern)` holds when constructing `std::regex(pattern)` does
      not throw `regex_error`, and `search(pattern, subject)` is
      `std::regex_search(subject, std::regex(pattern))`. */
  datatype RegexEngine = RegexEngine(
    compiles: string -> bool,
    search: (string, string) -> bool)

  /** `s.find(pat) != std::string::npos`. */
  predicate Occurs(pat: string, s: string)
  {
    exists k | 0 <= k <= |s| :: pat <= s[k..]
  }

  function Patterns(option: string): seq<string>
  {
    Split.Tokens(option, PatternDelimiter)
  }

  // ---------------------------------------------------------------- exclude

  /** One compiled exclude pattern (main.cpp:220-241): it is searched in the
      path, the file name, the extension with and without its period, and
      every element of the path. */
  predicate RegexExcludes(re: RegexEngine, pattern: string, p: Path)
  {
    var ext := Extension(p);
    || re.search(pattern, ToString(p))
    || re.search(pattern, Filename(p))
    || (ext != [] && (re.search(pattern, ext) || re.search(pattern, ext[1..])))
    || (exists i | 0 <= i < |Parts(p)| :: re.search(pattern, Parts(p)[i]))
  }

  /** One exclude pattern that is not a valid regular expression
      (main.cpp:242-257): substring of the path or of the file name, equal
      to a non-empty extension, or, for a directory, equal to one of the
      path's elements. */
  predicate LiteralExcludes(pattern: string, p: Path, isDirectory: bool)
  {
    var ext := Extension(p);
    || Occurs(pattern, ToString(p))
    || Occurs(pattern, Filename(p))
    || (ext != [] && ext == pattern)
    || (isDirectory && exists i | 0 <= i < |Parts(p)| :: Parts(p)[i] == pattern)
  }

  predicate PatternExcludes(re: RegexEngine, pattern: string, p: Path, isDirectory: bool)
  {
    if re.compiles(pattern) then RegexExcludes(re, pattern, p)
    else LiteralExcludes(pattern, p, isDirectory)
  }

  /** The loop of main.cpp:218-261: the first pattern that matches returns
      true. */
  function AnyPatternExcludes(re: RegexEngine, patterns: seq<string>, p: Path, isDirectory: bool): (excluded: bool)
    ensures excluded <==>
      exists i | 0 <= i < |patterns| :: PatternExcludes(re, patterns[i], p, isDirectory)
  {
    if patterns == [] then false
    else if PatternExcludes(re, patterns[0], p, isDirectory) then true
    else
      var rest := AnyPatternExcludes(re, patterns[1..], p, isDirectory);
      assert forall i | 1 <= i < |patterns| :: patterns[1..][i - 1] == patterns[i];
      rest
  }

  /** `should_exclude(path)`; `isDirectory` is `fs::is_directory(path)`. */
  function ShouldExclude(opts: Options, re: RegexEngine, p: Path, isDirectory: bool): (excluded: bool)
    ensures opts.exclude.None? ==> !excluded
    ensures excluded <==>
      opts.exclude.Some? &&
      exists t | t in Patterns(opts.exclude.value) :: PatternExcludes(re, t, p, isDirectory)
  {
    match opts.exclude
    case None => false
    case Some(option) => AnyPatternExcludes(re, Patterns(option), p, isDirectory)
  }

  // ----------------------------------------------------------------- suffix

  /** One suffix pattern against a non-empty extension (main.cpp:282-298). */
  predicate PatternIncludes(re: RegexEngine, pattern: string, ext: string)
    requires ext != []
  {
    if re.compiles(pattern) then re.search(pattern, ext) || re.search(pattern, ext[1..])
    else ext == pattern || ext[1..] == pattern
  }

  /** The loop of main.cpp:281-301. */
  function AnyPatternIncludes(re: RegexEngine, patterns: seq<string>, ext: string): (included: bool)
    requires ext != []
    ensures included <==>
      exists i | 0 <= i < |patterns| :: PatternIncludes(re, patterns[i], ext)
  {
    if patterns == [] then false
    else if PatternIncludes(re, patterns[0], ext) then true
    else
      var rest := AnyPatternIncludes(re, patterns[1..], ext);
      assert forall i | 1 <= i < |patterns| :: patterns[1..][i - 1] == patterns[i];
      rest
  }

  /** `should_include_suffix(path)`. */
  function ShouldIncludeSuffix(opts: Options, re: RegexEngine, p: Path): (included: bool)
    ensures opts.suffix.None? ==> included
    ensures opts.suffix.Some? && Extension(p) == [] ==> !included
    ensures included <==>
      || opts.suffix.None?
      || (Extension(p) != [] &&
          exists t | t in Patterns(opts.suffix.value) :: PatternIncludes(re, t, Extension(p)))
  {
    match opts.suffix
    case None => true
    case Some(option) =>
      var ext := Extension(p);
      if ext == [] then false
      else AnyPatternIncludes(re, Patterns(option), ext)
  }

  // ------------------------------------------------------------ properties

  /** Exclusion is an OR over the patterns: reordering the list (or
      repeating a pattern the same number of times) never changes it. */
  lemma ExclusionIgnoresOrder(re: RegexEngine, ps: seq<string>, qs: seq<string>, p: Path, isDirectory: bool)
    requires multiset(ps) == multiset(qs)
    ensures AnyPatternExcludes(re, ps, p, isDirectory) == AnyPatternExcludes(re, qs, p, isDirectory)
  {
    forall xs, ys | multiset(xs) == multiset(ys) && AnyPatternExcludes(re, xs, p, isDirectory)
      ensures AnyPatternExcludes(re, ys, p, isDirectory)
    {
      var i :| 0 <= i < |xs| && PatternExcludes(re, xs[i], p, isDirectory);
      assert xs[i] in multiset(ys);
      var j :| 0 <= j < |ys| && ys[j] == xs[i];
    }
  }

  /** The same for the suffix filter. */
  lemma InclusionIgnoresOrder(re: RegexEngine, ps: seq<string>, qs: seq<string>, ext: string)
    requires ext != []
    requires multiset(ps) == multiset(qs)
    ensures AnyPatternIncludes(re, ps, ext) == AnyPatternIncludes(re, qs, ext)
  {
    forall xs, ys | multiset(xs) == multiset(ys) && AnyPatternIncludes(re, xs, ext)
      ensures AnyPatternIncludes(re, ys, ext)
    {
      var i :| 0 <= i < |xs| && PatternIncludes(re, xs[i], ext);
      assert xs[i] in multiset(ys);
      var j :| 0 <= j < |ys| && ys[j] == xs[i];
    }
  }

  lemma OccursSelf(s: string)
    ensures Occurs(s, s)
  {
    assert s <= s[0..];
  }

  lemma OccursInside(pat: string, x: string, y: string, z: string)
    requires Occurs(pat, y)
    ensures Occurs(pat, x + y + z)
  {
    var k :| 0 <= k <= |y| && pat <= y[k..];
    assert (x + y + z)[|x| + k..] == y[k..] + z;
  }

  lemma OccursTransitive(a: string, b: string, c: string)
    requires Occurs(a, b) && Occurs(b, c)
    ensures Occurs(a, c)
  {
    var k :| 0 <= k <= |b| && a <= b[k..];
    var j :| 0 <= j <= |c| && b <= c[j..];
    assert b == c[j..j + |b|];
    assert a == b[k..k + |a|];
    assert b[k..k + |a|] == c[j + k..j + k + |a|];
    assert a <= c[j + k..];
  }

  lemma {:induction false} NameOccursInJoin(names: seq<string>, i: nat, d: char)
    requires i < |names|
    ensures Occurs(names[i], Split.Join(names, d))
  {
    var n := |names|;
    if n == 1 {
      OccursSelf(names[i]);
      OccursInside(names[i], [], names[i], []);
      assert [] + names[i] + [] == names[i];
    } else if i == n - 1 {
      OccursSelf(names[i]);
      OccursInside(names[i], Split.Join(names[..n - 1], d) + [d], names[i], []);
      assert Split.Join(names[..n - 1], d) + [d] + names[i] + [] == Split.Join(names, d);
    } else {
      NameOccursInJoin(names[..n - 1], i, d);
      OccursInside(names[i], [], Split.Join(names[..n - 1], d), [d] + names[n - 1]);
      assert [] + Split.Join(names[..n - 1], d) + ([d] + names[n - 1]) == Split.Join(names, d);
    }
  }

  /** Every element a path iterates over is a substring of its string. */
  lemma PartOccurs(p: Path, i: nat)
    requires i < |Parts(p)|
    ensures Occurs(Parts(p)[i], ToString(p))
  {
    var root := if p.rooted then [Separator] else [];
    var rest := if p.names == [] then [] else Split.Join(p.names, Separator);
    assert ToString(p) == root + rest;
    if p.rooted && i == 0 {
      OccursSelf(root);
      OccursInside(root, [], root, rest);
      assert [] + root + rest == ToString(p);
    } else {
      var j := if p.rooted then i - 1 else i;
      assert Parts(p)[i] == p.names[j];
      NameOccursInJoin(p.names, j, Separator);
      OccursInside(p.names[j], root, rest, []);
      assert root + rest + [] == ToString(p);
    }
  }

  /** The file name, and hence the extension, are substrings of the path. */
  lemma FilenameAndExtensionOccur(p: Path)
    ensures Occurs(Filename(p), ToString(p))
    ensures Occurs(Extension(p), ToString(p))
  {
    var f := Filename(p);
    if p.names == [] {
      assert f <= ToString(p)[0..];
    } else {
      PartOccurs(p, |Parts(p)| - 1);
    }
    var e := Extension(p);
    assert e <= f[|f| - |e|..];
    OccursTransitive(e, f, ToString(p));
  }

  /** The string fallback of `should_exclude` comes down to one test: the
      pattern is a substring of the path. The file name, extension and
      directory-element checks of main.cpp:245-256 never change the result,
      since each of those strings is itself a substring of the path. */
  lemma LiteralExclusionIsSubstring(re: RegexEngine, pattern: string, p: Path, isDirectory: bool)
    requires !re.compiles(pattern)
    ensures PatternExcludes(re, pattern, p, isDirectory) <==> Occurs(pattern, ToString(p))
  {
    if PatternExcludes(re, pattern, p, isDirectory) && !Occurs(pattern, ToString(p)) {
      FilenameAndExtensionOccur(p);
      if Occurs(pattern, Filename(p)) {
        OccursTransitive(pattern, Filename(p), ToString(p));
      } else if Extension(p) != [] && Extension(p) == pattern {
      } else {
        var i :| 0 <= i < |Parts(p)| && Parts(p)[i] == pattern;
        PartOccurs(p, i);
      }
    }
  }

  /** A pattern that names a directory excludes every path below that
      directory, at any depth: as a regular expression when it is found in
      the directory's name, and in the string fallback when it is the name. */
  lemma DirectoryNameExcludesDescendants(re: RegexEngine, pattern: string, p: Path, isDirectory: bool, i: nat)
    requires i < |p.names|
    requires re.compiles(pattern) ==> re.search(pattern, p.names[i])
    requires !re.compiles(pattern) ==> p.names[i] == pattern
    ensures PatternExcludes(re, pattern, p, isDirectory)
  {
    var j := if p.rooted then i + 1 else i;
    assert Parts(p)[j] == p.names[i];
    if !re.compiles(pattern) {
      PartOccurs(p, j);
      LiteralExclusionIsSubstring(re, pattern, p, isDirectory);
    }
  }

  /** The string fallback of the suffix filter, for a pattern without a
      period: a file is kept iff its name is some non-empty stem, a period
      and the pattern. A name like `.txt` is never kept. */
  lemma LiteralSuffixMatchesNameEnd(re: RegexEngine, pattern: string, p: Path)
    requires !re.compiles(pattern)
    requires pattern != [] && '.' !in pattern
    ensures (Extension(p) != [] && PatternIncludes(re, pattern, Extension(p))) <==>
      var f := Filename(p);
      |f| > |pattern| + 1 && f[|f| - |pattern| - 1..] == ['.'] + pattern
  {
    var f := Filename(p);
    var e := Extension(p);
    var n := |pattern| + 1;
    if e != [] && PatternIncludes(re, pattern, e) {
      assert e[0] == '.' && e != pattern;
      assert e == ['.'] + pattern;
    }
    if |f| > n && f[|f| - n..] == ['.'] + pattern {
      var k := LastIndexOf(f, '.');
      assert f[|f| - n] == '.';
      assert forall j | |f| - n < j < |f| :: f[j] == pattern[j - (|f| - n) - 1];
      assert k == |f| - n;
      assert f != "." && f != "..";
      assert e == f[k..];
    }
  }
}
