/** The string operations the licence parser is made of, and how they act on concatenations. */
module Text {

  function Reverse(s: string): (r: string)
    ensures |r| == |s| && forall i | 0 <= i < |s| :: r[i] == s[|s| - 1 - i]
  {
    if s == [] then [] else Reverse(s[1..]) + [s[0]]
  }

  lemma ReverseTwice(s: string)
    ensures Reverse(Reverse(s)) == s
  {}

  /** `to_lowercase` where it can matter here: of all other characters only the Kelvin sign becomes one
      plain ASCII letter. */
  function LowerChar(c: char): char {
    if 'A' <= c <= 'Z' then (c as int - 'A' as int + 'a' as int) as char
    else if c == '\U{212A}' then 'k'
    else c
  }

  function Lower(s: string): (r: string)
    ensures |r| == |s|
  {
    seq(|s|, i requires 0 <= i < |s| => LowerChar(s[i]))
  }

  predicate EndsWith(s: string, t: string) {
    |s| >= |t| && s[|s| - |t|..] == t
  }

  /** Pattern `p` stands at index `i` of `s`. */
  predicate OccursAt(s: string, p: string, i: int) {
    0 <= i && i + |p| <= |s| && s[i..i + |p|] == p
  }

  predicate Contains(s: string, p: string) {
    exists i | 0 <= i <= |s| :: OccursAt(s, p, i)
  }

  /** `str::replace`: leftmost matches first, none overlapping. */
  function Replace(s: string, p: string, to: string): string
    requires |p| > 0
  {
    if |s| < |p| then s
    else if s[..|p|] == p then to + Replace(s[|p|..], p, to)
    else [s[0]] + Replace(s[1..], p, to)
  }

  /** `str::split`: the pieces between leftmost, non-overlapping separators. */
  function Split(s: string, p: string): (pieces: seq<string>)
    requires |p| > 0
    ensures |pieces| > 0
  {
    if |s| < |p| then [s]
    else if s[..|p|] == p then [""] + Split(s[|p|..], p)
    else
      var rest := Split(s[1..], p);
      [[s[0]] + rest[0]] + rest[1..]
  }

  predicate IsSpace(c: char) {
    || '\U{0009}' <= c <= '\U{000D}' || c == ' ' || c == '\U{0085}' || c == '\U{00A0}' || c == '\U{1680}'
    || '\U{2000}' <= c <= '\U{200A}' || c == '\U{2028}' || c == '\U{2029}' || c == '\U{202F}'
    || c == '\U{205F}' || c == '\U{3000}'
  }

  function TrimStart(s: string): string {
    if s != [] && IsSpace(s[0]) then TrimStart(s[1..]) else s
  }

  function TrimEnd(s: string): string {
    if s != [] && IsSpace(s[|s| - 1]) then TrimEnd(s[..|s| - 1]) else s
  }

  function Trim(s: string): string {
    TrimEnd(TrimStart(s))
  }

  // ---------------------------------------------------------------------------------------------

  /** No occurrence of `p` in `a + b` lies across the seam. */
  ghost predicate NoStraddle(a: string, b: string, p: string) {
    forall i | 0 <= i < |a| && i + |p| > |a| :: !OccursAt(a + b, p, i)
  }

  ghost predicate Absent(s: string, p: string) {
    forall i :: !OccursAt(s, p, i)
  }

  lemma StraddleShorter(a: string, b: string, p: string, k: nat)
    requires NoStraddle(a, b, p) && k <= |a|
    ensures NoStraddle(a[k..], b, p)
  {
    forall i | 0 <= i < |a[k..]| && i + |p| > |a[k..]|
      ensures !OccursAt(a[k..] + b, p, i)
    {
      assert !OccursAt(a + b, p, i + k);
      if i + |p| <= |a[k..] + b| {
        assert (a[k..] + b)[i..i + |p|] == (a + b)[i + k..i + k + |p|];
      }
    }
  }

  predicate StartsWith(s: string, p: string) {
    |s| >= |p| && s[..|p|] == p
  }

  lemma SeamHit(a: string, b: string, p: string)
    requires StartsWith(a, p)
    ensures StartsWith(a + b, p) && (a + b)[|p|..] == a[|p|..] + b
  {}

  lemma SeamMiss(a: string, b: string, p: string)
    requires |a| > 0 && !StartsWith(a, p) && NoStraddle(a, b, p)
    ensures !StartsWith(a + b, p) && (a + b)[1..] == a[1..] + b
  {
    if |a| < |p| {
      assert !OccursAt(a + b, p, 0);
    } else {
      assert (a + b)[..|p|] == a[..|p|];
    }
  }

  lemma ReplaceHit(s: string, p: string, to: string)
    requires |p| > 0 && StartsWith(s, p)
    ensures Replace(s, p, to) == to + Replace(s[|p|..], p, to)
  {}

  lemma ReplaceMiss(s: string, p: string, to: string)
    requires |p| > 0 && |s| > 0 && !StartsWith(s, p)
    ensures Replace(s, p, to) == [s[0]] + Replace(s[1..], p, to)
  {}

  /** Replacing acts on the two sides of a clean seam separately. */
  lemma {:induction false} ReplaceConcat(a: string, b: string, p: string, to: string)
    requires |p| > 0 && NoStraddle(a, b, p)
    ensures Replace(a + b, p, to) == Replace(a, p, to) + Replace(b, p, to)
    decreases |a|
  {
    if |a| == 0 {
      assert a + b == b;
    } else if StartsWith(a, p) {
      SeamHit(a, b, p);
      StraddleShorter(a, b, p, |p|);
      ReplaceConcat(a[|p|..], b, p, to);
      ReplaceHit(a, p, to);
      ReplaceHit(a + b, p, to);
    } else {
      SeamMiss(a, b, p);
      StraddleShorter(a, b, p, 1);
      ReplaceConcat(a[1..], b, p, to);
      ReplaceMiss(a, p, to);
      ReplaceMiss(a + b, p, to);
    }
  }

  lemma {:induction false} ReplaceAbsent(s: string, p: string, to: string)
    requires |p| > 0 && Absent(s, p)
    ensures Replace(s, p, to) == s
  {
    if |s| >= |p| {
      assert !OccursAt(s, p, 0);
      AbsentShorter(s, p);
      ReplaceAbsent(s[1..], p, to);
    }
  }

  lemma TailOccurs(s: string, p: string, j: nat)
    requires |s| > 0
    ensures OccursAt(s[1..], p, j) <==> OccursAt(s, p, j + 1)
  {
    if j + 1 + |p| <= |s| {
      assert s[1..][j..j + |p|] == s[j + 1..j + 1 + |p|];
    }
  }

  lemma ContainsInRest(s: string, p: string)
    requires Contains(s, p) && !OccursAt(s, p, 0) && |s| > 0
    ensures Contains(s[1..], p)
  {
    var i :| 0 <= i <= |s| && OccursAt(s, p, i);
    TailOccurs(s, p, i - 1);
  }

  lemma AbsentShorter(s: string, p: string)
    requires Absent(s, p) && |s| > 0
    ensures Absent(s[1..], p)
  {
    forall i
      ensures !OccursAt(s[1..], p, i)
    {
      assert !OccursAt(s, p, i + 1);
      if 0 <= i && i + |p| <= |s[1..]| {
        assert s[1..][i..i + |p|] == s[i + 1..i + 1 + |p|];
      }
    }
  }

  lemma SplitHit(s: string, p: string)
    requires |p| > 0 && StartsWith(s, p)
    ensures Split(s, p) == [""] + Split(s[|p|..], p)
  {}

  lemma SplitMiss(s: string, p: string)
    requires |p| > 0 && |s| > 0 && !StartsWith(s, p)
    ensures Split(s, p) == [[s[0]] + Split(s[1..], p)[0]] + Split(s[1..], p)[1..]
  {
    if |s| < |p| {
      var rest := s[1..];
      assert Split(rest, p) == [rest] && [s[0]] + rest == s;
    }
  }

  lemma PrependToFirst(c: char, x: seq<string>, y: seq<string>)
    requires |x| > 0
    ensures [[c] + (x + y)[0]] + (x + y)[1..] == ([[c] + x[0]] + x[1..]) + y
  {}

  /** Splitting `a + p + b` at a separator that is clean on its left. */
  lemma {:induction false} SplitConcat(a: string, b: string, p: string)
    requires |p| > 0 && NoStraddle(a, p + b, p)
    ensures Split(a + (p + b), p) == Split(a, p) + Split(b, p)
    decreases |a|
  {
    var s := a + (p + b);
    if |a| == 0 {
      assert s[..|p|] == p && s[|p|..] == b;
      SplitHit(s, p);
    } else if StartsWith(a, p) {
      SeamHit(a, p + b, p);
      StraddleShorter(a, p + b, p, |p|);
      SplitConcat(a[|p|..], b, p);
      SplitHit(a, p);
      SplitHit(s, p);
    } else {
      SeamMiss(a, p + b, p);
      StraddleShorter(a, p + b, p, 1);
      SplitConcat(a[1..], b, p);
      SplitMiss(a, p);
      SplitMiss(s, p);
      PrependToFirst(a[0], Split(a[1..], p), Split(b, p));
    }
  }

  /** The pieces of a concatenation: the last of the left side runs on into the first of the right. */
  function Join(x: seq<string>, y: seq<string>): seq<string>
    requires |x| > 0 && |y| > 0
  {
    x[..|x| - 1] + [x[|x| - 1] + y[0]] + y[1..]
  }

  lemma JoinAfter(s: string, x: seq<string>, y: seq<string>)
    requires |x| > 0 && |y| > 0
    ensures Join([s] + x, y) == [s] + Join(x, y)
  {
    assert ([s] + x)[..|x|] == [s] + x[..|x| - 1];
  }

  lemma JoinLonger(c: char, x: seq<string>, y: seq<string>)
    requires |x| > 0 && |y| > 0
    ensures Join([[c] + x[0]] + x[1..], y) == [[c] + Join(x, y)[0]] + Join(x, y)[1..]
  {
    if |x| == 1 {
      assert [c] + (x[0] + y[0]) == ([c] + x[0]) + y[0];
      assert Join([[c] + x[0]] + x[1..], y) == [[c] + x[0] + y[0]] + y[1..];
      assert Join(x, y) == [x[0] + y[0]] + y[1..];
    } else {
      JoinAfter([c] + x[0], x[1..], y);
      JoinAfter(x[0], x[1..], y);
      assert x == [x[0]] + x[1..];
    }
  }

  /** Splitting acts on the two sides of a clean seam separately. */
  lemma {:induction false} SplitSeam(a: string, b: string, p: string)
    requires |p| > 0 && NoStraddle(a, b, p)
    ensures Split(a + b, p) == Join(Split(a, p), Split(b, p))
    decreases |a|
  {
    if |a| == 0 {
      assert a + b == b && Split(a, p) == [""];
      assert "" + Split(b, p)[0] == Split(b, p)[0];
    } else if StartsWith(a, p) {
      SeamHit(a, b, p);
      StraddleShorter(a, b, p, |p|);
      SplitSeam(a[|p|..], b, p);
      SplitHit(a, p);
      SplitHit(a + b, p);
      JoinAfter("", Split(a[|p|..], p), Split(b, p));
    } else {
      SeamMiss(a, b, p);
      StraddleShorter(a, b, p, 1);
      SplitSeam(a[1..], b, p);
      SplitMiss(a, p);
      SplitMiss(a + b, p);
      JoinLonger(a[0], Split(a[1..], p), Split(b, p));
    }
  }

  lemma {:induction false} SinglePiece(s: string, p: string)
    requires |p| > 0 && |Split(s, p)| == 1
    ensures Split(s, p) == [s]
  {
    if |s| >= |p| {
      if StartsWith(s, p) {
        SplitHit(s, p);
        assert false;
      } else {
        SplitMiss(s, p);
        SinglePiece(s[1..], p);
        assert s == [s[0]] + s[1..];
      }
    }
  }

  function LastOf(pieces: seq<string>): string
    requires |pieces| > 0
  {
    pieces[|pieces| - 1]
  }

  /** A text whose last character does not end the separator gives it to its last piece. */
  lemma {:induction false} LastPieceEnds(s: string, p: string, c: char)
    requires |p| > 0 && |s| > 0 && s[|s| - 1] == c && p[|p| - 1] != c
    ensures |LastOf(Split(s, p))| > 0 && LastOf(Split(s, p))[|LastOf(Split(s, p))| - 1] == c
  {
    if StartsWith(s, p) {
      SplitHit(s, p);
      assert s[..|p|][|p| - 1] == s[|p| - 1];
      LastPieceEnds(s[|p|..], p, c);
    } else {
      SplitMiss(s, p);
      if |s| > 1 {
        LastPieceEnds(s[1..], p, c);
      }
    }
  }

  lemma {:induction false} SplitAbsent(s: string, p: string)
    requires |p| > 0 && Absent(s, p)
    ensures Split(s, p) == [s]
  {
    if |s| >= |p| {
      assert !OccursAt(s, p, 0);
      AbsentShorter(s, p);
      SplitAbsent(s[1..], p);
      assert s == [s[0]] + s[1..];
    }
  }

  /** Trailing white space goes, and nothing else does when neither end is white. */
  lemma {:induction false} TrimTrailing(s: string, spaces: string)
    requires |s| > 0 && !IsSpace(s[0]) && !IsSpace(s[|s| - 1])
    requires forall i | 0 <= i < |spaces| :: IsSpace(spaces[i])
    ensures Trim(s + spaces) == s
    decreases |spaces|
  {
    var t := s + spaces;
    assert TrimStart(t) == t;
    if spaces == [] {
      assert t == s;
    } else {
      TrimTrailing(s, spaces[..|spaces| - 1]);
      assert t[..|t| - 1] == s + spaces[..|spaces| - 1];
    }
  }

  /** In front of a text that neither starts nor ends white, a text ending in black leaves something. */
  lemma TrimAround(v: string, s: string, spaces: string) returns (w: string)
    requires |v| > 0 && !IsSpace(v[|v| - 1]) && |s| > 0 && !IsSpace(s[|s| - 1])
    requires forall i | 0 <= i < |spaces| :: IsSpace(spaces[i])
    ensures |w| > 0 && w[|w| - 1] == v[|v| - 1] && Trim(v + s + spaces) == w + s
  {
    w := TrimStart(v);
    TrimStartFront(v, s + spaces);
    assert v + s + spaces == v + (s + spaces) && w + s + spaces == w + (s + spaces);
    assert TrimStart(w + s + spaces) == w + s + spaces;
    TrimTrailing(w + s, spaces);
  }

  lemma {:induction false} TrimStartFront(v: string, t: string)
    requires |v| > 0 && !IsSpace(v[|v| - 1])
    ensures TrimStart(v + t) == TrimStart(v) + t
    ensures |TrimStart(v)| > 0 && !IsSpace(TrimStart(v)[0]) && TrimStart(v)[|TrimStart(v)| - 1] == v[|v| - 1]
  {
    if IsSpace(v[0]) {
      assert (v + t)[1..] == v[1..] + t;
      TrimStartFront(v[1..], t);
    }
  }

  lemma {:induction false} TrimStartKeeps(s: string, c: char)
    requires c in s && !IsSpace(c)
    ensures c in TrimStart(s)
  {
    if IsSpace(s[0]) {
      TrimStartKeeps(s[1..], c);
    }
  }

  lemma {:induction false} TrimEndKeeps(s: string, c: char)
    requires c in s && !IsSpace(c)
    ensures c in TrimEnd(s)
  {
    if IsSpace(s[|s| - 1]) {
      TrimEndKeeps(s[..|s| - 1], c);
    }
  }

  lemma TrimKeeps(s: string, c: char)
    requires c in s && !IsSpace(c)
    ensures c in Trim(s)
  {
    TrimStartKeeps(s, c);
    TrimEndKeeps(TrimStart(s), c);
  }
}
