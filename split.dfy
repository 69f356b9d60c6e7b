/**
 * `split_string` (main.cpp:189-202): the `;`-separated option strings
 * `--suffix` and `--exclude` become the list of their non-empty pieces.
 */
module Split {

  /** Every segment of `s` between occurrences of `d`, empty ones included,
      from left to right. This is a plain split, not what `std::getline`
      reads: `Segments("a;", ';')` is `["a", ""]` and `Segments("", ';')` is
      `[""]`, where `std::getline` reads no final empty token. The two agree
      once `NonEmpty` drops the empty tokens, which `split_string` does. */
  function Segments(s: string, d: char): (r: seq<string>)
    ensures |r| >= 1
  {
    if s == [] then [[]]
    else
      var prev := Segments(s[..|s| - 1], d);
      if s[|s| - 1] == d then prev + [[]]
      else prev[..|prev| - 1] + [prev[|prev| - 1] + [s[|s| - 1]]]
  }

  /** The inverse of `Segments`: the parts glued back together with `d`. */
  function Join(parts: seq<string>, d: char): string
    requires |parts| >= 1
  {
    if |parts| == 1 then parts[0]
    else Join(parts[..|parts| - 1], d) + [d] + parts[|parts| - 1]
  }

  /** The parts that are not empty, in their order. */
  function NonEmpty(parts: seq<string>): (r: seq<string>)
    ensures |r| <= |parts|
    ensures forall i | 0 <= i < |r| :: r[i] != [] && r[i] in parts
  {
    if parts == [] then []
    else
      var last := parts[|parts| - 1];
      NonEmpty(parts[..|parts| - 1]) + (if last == [] then [] else [last])
  }

  /** What `split_string(s, d)` returns: the non-empty maximal `d`-free
      segments of `s`, in order. */
  function Tokens(s: string, d: char): (tokens: seq<string>)
    ensures forall i | 0 <= i < |tokens| :: tokens[i] != [] && d !in tokens[i]
  {
    SegmentsFree(s, d);
    NonEmpty(Segments(s, d))
  }

  /** No segment contains the delimiter. */
  lemma {:induction false} SegmentsFree(s: string, d: char)
    ensures forall i | 0 <= i < |Segments(s, d)| :: d !in Segments(s, d)[i]
  {
    if s != [] {
      SegmentsFree(s[..|s| - 1], d);
    }
  }

  lemma {:induction false} JoinAppendToLast(parts: seq<string>, c: char, d: char)
    requires |parts| >= 1
    ensures Join(parts[..|parts| - 1] + [parts[|parts| - 1] + [c]], d) == Join(parts, d) + [c]
  {
    var n := |parts|;
    var q := parts[..n - 1] + [parts[n - 1] + [c]];
    if n > 1 {
      assert q[..n - 1] == parts[..n - 1];
    }
  }

  /** Gluing the segments back together gives the input: nothing is lost. */
  lemma {:induction false} JoinSegments(s: string, d: char)
    ensures Join(Segments(s, d), d) == s
  {
    if s != [] {
      var p, c := s[..|s| - 1], s[|s| - 1];
      JoinSegments(p, d);
      JoinSegmentsStep(p, c, d);
      LastSplit(s);
    }
  }

  /** A non-empty string is its prefix followed by its last character. */
  lemma LastSplit(s: string)
    requires s != []
    ensures s == s[..|s| - 1] + [s[|s| - 1]]
  {
  }

  /** One more character keeps the segments gluing back to the input. */
  lemma JoinSegmentsStep(p: string, c: char, d: char)
    requires Join(Segments(p, d), d) == p
    ensures Join(Segments(p + [c], d), d) == p + [c]
  {
    var prev := Segments(p, d);
    assert (p + [c])[..|p|] == p;
    if c == d {
      var q := prev + [[]];
      assert Segments(p + [c], d) == q;
      assert q[..|q| - 1] == prev;
    } else {
      JoinAppendToLast(prev, c, d);
    }
  }

  lemma {:induction false} SegmentsOfFree(s: string, d: char)
    requires d !in s
    ensures Segments(s, d) == [s]
  {
    if s != [] {
      SegmentsOfFree(s[..|s| - 1], d);
      assert s[..|s| - 1] + [s[|s| - 1]] == s;
    }
  }

  lemma {:induction false} SegmentsAfterDelimiter(a: string, b: string, d: char)
    requires d !in b
    ensures Segments(a + [d] + b, d) == Segments(a, d) + [b]
    decreases |b|
  {
    var s := a + [d] + b;
    if b == [] {
      assert s[..|s| - 1] == a;
    } else {
      var b' := b[..|b| - 1];
      SegmentsAfterDelimiter(a, b', d);
      assert s[..|s| - 1] == a + [d] + b';
      assert b' + [b[|b| - 1]] == b;
    }
  }

  /** Segments are maximal: splitting delimiter-free parts glued with the
      delimiter gives back exactly those parts. */
  lemma {:induction false} SegmentsJoin(parts: seq<string>, d: char)
    requires |parts| >= 1
    requires forall i | 0 <= i < |parts| :: d !in parts[i]
    ensures Segments(Join(parts, d), d) == parts
  {
    if |parts| == 1 {
      SegmentsOfFree(parts[0], d);
    } else {
      var init := parts[..|parts| - 1];
      SegmentsJoin(init, d);
      SegmentsAfterDelimiter(Join(init, d), parts[|parts| - 1], d);
      assert init + [parts[|parts| - 1]] == parts;
    }
  }

  lemma {:induction false} NonEmptyKeepsAll(parts: seq<string>)
    requires forall i | 0 <= i < |parts| :: parts[i] != []
    ensures NonEmpty(parts) == parts
  {
    if parts != [] {
      NonEmptyKeepsAll(parts[..|parts| - 1]);
      assert parts[..|parts| - 1] + [parts[|parts| - 1]] == parts;
    }
  }

  /** Round trip: non-empty, delimiter-free patterns joined with `;` are
      split back into exactly the same list. */
  lemma TokensOfJoin(parts: seq<string>, d: char)
    requires |parts| >= 1
    requires forall i | 0 <= i < |parts| :: parts[i] != [] && d !in parts[i]
    ensures Tokens(Join(parts, d), d) == parts
  {
    SegmentsJoin(parts, d);
    NonEmptyKeepsAll(parts);
  }

  /** A string is a token iff it is a non-empty segment. */
  lemma {:induction false} NonEmptyMembers(parts: seq<string>, t: string)
    ensures t in NonEmpty(parts) <==> t != [] && t in parts
  {
    if parts != [] {
      var init := parts[..|parts| - 1];
      NonEmptyMembers(init, t);
      assert parts == init + [parts[|parts| - 1]];
    }
  }

  /** One turn of the `std::getline` loop. Reading `str[i]` either closes
      the current segment, whose token is kept when it is non-empty, or
      extends it by that character. */
  lemma SplitStep(str: string, i: nat, d: char, done: seq<string>, token: string)
    requires i < |str| && Segments(str[..i], d) == done + [token]
    ensures str[i] == d ==> Segments(str[..i + 1], d) == (done + [token]) + [[]]
    ensures str[i] == d ==> NonEmpty(done + [token]) == NonEmpty(done) + (if token == [] then [] else [token])
    ensures str[i] != d ==> Segments(str[..i + 1], d) == done + [token + [str[i]]]
  {
    assert str[..i + 1][..i] == str[..i];
    assert (done + [token])[..|done|] == done;
  }

  /** The end of the loop: the last segment is pushed when it is non-empty. */
  lemma SplitFinish(str: string, d: char, done: seq<string>, token: string)
    requires Segments(str, d) == done + [token]
    ensures Tokens(str, d) == NonEmpty(done) + (if token == [] then [] else [token])
  {
    assert (done + [token])[..|done|] == done;
  }

  /** `split_string`: the `std::getline` loop pushes each non-empty token. */
  method SplitString(str: string, delimiter: char) returns (tokens: seq<string>)
    ensures tokens == Tokens(str, delimiter)
  {
    tokens := [];
    var token: string := [];
    ghost var done: seq<string> := [];
    var i := 0;
    while i < |str|
      invariant i <= |str|
      invariant Segments(str[..i], delimiter) == done + [token]
      invariant tokens == NonEmpty(done)
    {
      SplitStep(str, i, delimiter, done, token);
      if str[i] == delimiter {
        if token != [] {
          tokens := tokens + [token];
        }
        done := done + [token];
        token := [];
      } else {
        token := token + [str[i]];
      }
      i := i + 1;
    }
    assert str[..i] == str;
    SplitFinish(str, delimiter, done, token);
    if token != [] {
      tokens := tokens + [token];
    }
  }
}
