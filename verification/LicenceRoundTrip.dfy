/** A printed licence survives the trip through a file name. */
module LicenceRoundTrip {
  import opened Prelude
  import opened Base64Url
  import opened Text
  import opened LicenceName

  // ---------------------------------------------------------------------------------------------
  // Rewriting and the end of a string

  predicate HasDash(s: string) {
    '-' in s
  }

  /** A replacement that introduces dashes leaves no dash-free result behind. */
  lemma {:induction false} DashFreeIsUntouched(s: string, p: string)
    requires |p| > 0 && !HasDash(Replace(s, p, "--"))
    ensures Replace(s, p, "--") == s
  {
    if |s| >= |p| {
      if StartsWith(s, p) {
        assert false;
      } else {
        var rest := Replace(s[1..], p, "--");
        assert Replace(s, p, "--") == [s[0]] + rest;
        assert !HasDash(rest) by {
          forall i | 0 <= i < |rest|
            ensures rest[i] != '-'
          {
            assert ([s[0]] + rest)[i + 1] == rest[i];
          }
        }
        DashFreeIsUntouched(s[1..], p);
      }
    }
  }

  lemma EndsWithLonger(a: string, b: string, t: string)
    requires EndsWith(b, t)
    ensures EndsWith(a + b, t)
  {}

  lemma EndsWithShorter(a: string, b: string, t: string)
    requires EndsWith(a + b, t) && |b| >= |t|
    ensures EndsWith(b, t)
  {}

  /** If what precedes `x` ends in a dash and `x` is no longer than `w`, then `x` is `w`. */
  lemma DashBefore(a: string, x: string, w: string)
    requires |a| > 0 && a[|a| - 1] == '-' && !HasDash(w) && |x| <= |w| && EndsWith(a + x, "-" + w)
    ensures x == w
  {
    var s, t := a + x, "-" + w;
    LastChar(s, t, |x|);
    assert |x| == |w| by {
      if |x| < |w| {
        assert false;
      }
    }
    assert t[1..] == w;
    assert s[|s| - |t|..][1..] == x;
  }

  /** The characters of an ending, counted from the back. */
  lemma LastChar(s: string, t: string, k: nat)
    requires EndsWith(s, t)
    ensures k < |t| ==> s[|s| - 1 - k] == t[|t| - 1 - k]
  {
    if k < |t| {
      assert s[|s| - |t|..][|t| - 1 - k] == s[|s| - 1 - k];
    }
  }

  lemma ShortRest(into: string, rest: string, w: string)
    requires (into == "--" || |into| == 1) && !HasDash(w) && |rest| <= |w| && EndsWith(into + rest, "-" + w)
    ensures into[|into| - 1] == '-' && rest == w
  {
    var s, t := into + rest, "-" + w;
    LastChar(s, t, |w|);
    DashBefore(into, rest, w);
  }

  /** The induction step: `from` was replaced by `into` in front of `t`, both with the same last character. */
  lemma {:induction false} KeepsEndingBehind(from: string, into: string, t: string, p: string, w: string)
    requires |p| > 0 && p[|p| - 1] == '-' && !HasDash(w) && |from| > 0
    requires (from == p && into == "--") || (from == into && |from| == 1)
    requires EndsWith(into + Replace(t, p, "--"), "-" + w)
    ensures EndsWith(from + t, "-" + w)
    decreases |t|, 1
  {
    var rest := Replace(t, p, "--");
    if |rest| > |w| {
      EndsWithShorter(into, rest, "-" + w);
      ReplaceKeepsEnding(t, p, w);
      EndsWithLonger(from, t, "-" + w);
    } else {
      ShortRest(into, rest, w);
      DashFreeIsUntouched(t, p);
      DashThen(from, w);
    }
  }

  /** Replacing a pattern that ends in a dash creates no new ending of the form dash, then letters. */
  lemma {:induction false} ReplaceKeepsEnding(t: string, p: string, w: string)
    requires |p| > 0 && p[|p| - 1] == '-' && !HasDash(w)
    requires EndsWith(Replace(t, p, "--"), "-" + w)
    ensures EndsWith(t, "-" + w)
    decreases |t|, 0
  {
    if |t| >= |p| {
      if StartsWith(t, p) {
        ReplaceHit(t, p, "--");
        assert t == p + t[|p|..];
        KeepsEndingBehind(p, "--", t[|p|..], p, w);
      } else {
        ReplaceMiss(t, p, "--");
        assert t == [t[0]] + t[1..];
        KeepsEndingBehind([t[0]], [t[0]], t[1..], p, w);
      }
    }
  }

  lemma DashThen(a: string, w: string)
    requires |a| > 0 && a[|a| - 1] == '-'
    ensures EndsWith(a + w, "-" + w)
  {
    assert a + w == a[..|a| - 1] + ("-" + w);
  }

  // ---------------------------------------------------------------------------------------------
  // The seam between a prefix and the separator

  /** Nothing at the end of the prefix can join up with a separator behind it. */
  predicate Clean(p: string) {
    !EndsWith(p, "-") && !EndsWith(p, "-licensed")
  }

  predicate IsPattern(p: string) {
    p == LICENSED_1 || p == LICENSED_2 || p == LICENSED_3
  }

  lemma ReplaceKeepsClean(s: string, p: string)
    requires Clean(s) && IsPattern(p)
    ensures Clean(Replace(s, p, "--"))
  {
    var r := Replace(s, p, "--");
    assert "-" + "" == "-" && "-" + "licensed" == "-licensed";
    if EndsWith(r, "-") {
      ReplaceKeepsEnding(s, p, "");
      assert false;
    }
    if EndsWith(r, "-licensed") {
      ReplaceKeepsEnding(s, p, "licensed");
      assert false;
    }
  }

  lemma PatternDashes(p: string, j: nat)
    requires IsPattern(p) && 0 < j < |p| && p[j] == '-'
    ensures j >= 9 && (j == 9 ==> p[..9] == "-licensed") && (j > 9 ==> p[j - 1] == '-')
  {}

  lemma OccurrenceChar(s: string, p: string, i: nat, j: nat)
    requires OccursAt(s, p, i) && j < |p|
    ensures s[i + j] == p[j]
  {
    assert s[i..i + |p|][j] == s[i + j];
  }

  /** An occurrence across the seam makes the left side end in the beginning of the pattern. */
  lemma OccurrenceEnding(a: string, b: string, p: string, i: nat)
    requires OccursAt(a + b, p, i) && i < |a| < i + |p|
    ensures EndsWith(a, p[..|a| - i])
  {
    assert a[i..] == (a + b)[i..i + |p|][..|a| - i];
  }

  lemma CleanSeam(a: string, b: string, p: string)
    requires Clean(a) && IsPattern(p) && |b| > 0 && b[0] == '-'
    ensures NoStraddle(a, b, p)
  {
    forall i | 0 <= i < |a| && i + |p| > |a|
      ensures !OccursAt(a + b, p, i)
    {
      if OccursAt(a + b, p, i) {
        SeamGivesUnclean(a, b, p, i);
        assert false;
      }
    }
  }

  lemma SeamGivesUnclean(a: string, b: string, p: string, i: nat)
    requires IsPattern(p) && |b| > 0 && b[0] == '-' && i < |a| < i + |p| && OccursAt(a + b, p, i)
    ensures !Clean(a)
  {
    var j := |a| - i;
    OccurrenceChar(a + b, p, i, j);
    OccurrenceEnding(a, b, p, i);
    PatternDashes(p, j);
    if j > 9 {
      LastChar(a, p[..j], 0);
      assert a[|a| - 1..] == "-";
    }
  }

  lemma DashEnding(a: string)
    requires |a| > 0 && a[|a| - 1] == '-'
    ensures EndsWith(a, "-")
  {
    assert a[|a| - 1..] == "-";
  }

  lemma CleanSplitSeam(a: string, b: string)
    requires Clean(a)
    ensures NoStraddle(a, "--" + b, "--")
  {
    forall i | 0 <= i < |a| && i + 2 > |a|
      ensures !OccursAt(a + ("--" + b), "--", i)
    {
      if OccursAt(a + ("--" + b), "--", i) {
        OccurrenceChar(a + ("--" + b), "--", i, 0);
        DashEnding(a);
        assert false;
      }
    }
  }

  // ---------------------------------------------------------------------------------------------
  // The part behind the separator

  /** What a name with its suffix is like: no separator inside it, none that its first character
      belongs to. */
  ghost predicate Tail(q: string) {
    && |q| > 0 && q[0] !in LICENSED_1
    && Absent(q, "--") && Absent(q, LICENSED_1)
  }

  lemma OccursInTail(x: string, q: string, p: string, i: nat)
    requires OccursAt(x + q, p, i) && i >= |x|
    ensures OccursAt(q, p, i - |x|)
  {
    assert (x + q)[i..i + |p|] == q[i - |x|..i - |x| + |p|];
  }

  lemma ShortestPattern(q: string, p: string, i: nat)
    requires IsPattern(p) && OccursAt(q, p, i)
    ensures OccursAt(q, LICENSED_1, i)
  {
    assert q[i..i + 10] == q[i..i + |p|][..10];
    assert p[..10] == LICENSED_1;
  }

  lemma LongerPatternsAbsent(q: string, p: string)
    requires Absent(q, LICENSED_1) && IsPattern(p)
    ensures Absent(q, p)
  {
    forall i
      ensures !OccursAt(q, p, i)
    {
      if OccursAt(q, p, i) {
        ShortestPattern(q, p, i);
        assert false;
      }
    }
  }

  predicate IsSeparator(x: string) {
    x == "--" || IsPattern(x)
  }

  /** A separator followed by a tail holds a pattern only where the separator itself is one. */
  lemma OnlyTheSeparator(x: string, q: string, p: string, i: nat)
    requires IsSeparator(x) && IsPattern(p) && Tail(q) && OccursAt(x + q, p, i)
    ensures i == 0 && IsPattern(x) && |p| <= |x|
  {
    var s := x + q;
    OccurrenceChar(s, p, i, 0);
    OccurrenceChar(s, p, i, 1);
    if i >= |x| {
      OccursInTail(x, q, p, i);
      LongerPatternsAbsent(q, p);
      assert false;
    }
    if |p| > |x| && i == 0 {
      OccurrenceChar(s, p, 0, |x|);
    }
  }

  lemma SeparatorStage(x: string, q: string, p: string)
    requires IsSeparator(x) && IsPattern(p) && Tail(q) && (IsPattern(x) ==> |x| <= |p|)
    ensures Replace(x + q, p, "--") == if x == p then "--" + q else x + q
  {
    if x == p {
      LongerPatternsAbsent(q, p);
      ReplaceAbsent(q, p, "--");
      assert (x + q)[..|p|] == p && (x + q)[|p|..] == q;
      ReplaceHit(x + q, p, "--");
    } else {
      forall i
        ensures !OccursAt(x + q, p, i)
      {
        if OccursAt(x + q, p, i) {
          OnlyTheSeparator(x, q, p, i);
          assert false;
        }
      }
      ReplaceAbsent(x + q, p, "--");
    }
  }

  /** One stage of the rewriting, seen from the seam. */
  lemma Stage(a: string, x: string, q: string, p: string)
    requires Clean(a) && IsSeparator(x) && IsPattern(p) && Tail(q) && (IsPattern(x) ==> |x| <= |p|)
    ensures Replace(a + (x + q), p, "--") == Replace(a, p, "--") + (if x == p then "--" + q else x + q)
    ensures Clean(Replace(a, p, "--"))
  {
    CleanSeam(a, x + q, p);
    ReplaceConcat(a, x + q, p, "--");
    SeparatorStage(x, q, p);
    ReplaceKeepsClean(a, p);
  }

  function AfterStage(x: string, p: string): string {
    if x == p then "--" else x
  }

  /** Rewriting turns whichever separator was used into `--` and touches nothing behind it. */
  lemma RewriteAtSeparator(a: string, x: string, q: string, s: string)
    requires Clean(a) && IsSeparator(x) && Tail(q) && s == a + (x + q)
    ensures Rewrite(s) == Rewrite(a) + ("--" + q)
    ensures Clean(Rewrite(a))
  {
    var a1 := Replace(a, LICENSED_3, "--");
    var a2 := Replace(a1, LICENSED_2, "--");
    var x1 := AfterStage(x, LICENSED_3);
    var x2 := AfterStage(x1, LICENSED_2);
    Stage(a, x, q, LICENSED_3);
    Stage(a1, x1, q, LICENSED_2);
    Stage(a2, x2, q, LICENSED_1);
  }

  // ---------------------------------------------------------------------------------------------
  // The seam between a separator and the name

  /** No pattern reaches into the name, since none has its first character. */
  lemma NameSeam(a: string, q: string, p: string)
    requires Tail(q) && (IsPattern(p) || p == "--")
    ensures NoStraddle(a, q, p)
  {
    forall i | 0 <= i < |a| && i + |p| > |a|
      ensures !OccursAt(a + q, p, i)
    {
      if OccursAt(a + q, p, i) {
        OccurrenceChar(a + q, p, i, |a| - i);
        assert false;
      }
    }
  }

  /** Rewriting acts in front of the name only. */
  lemma RewriteBefore(a: string, q: string, s: string)
    requires Tail(q) && s == a + q
    ensures Rewrite(s) == Rewrite(a) + q
  {
    var a1 := Replace(a, LICENSED_3, "--");
    var a2 := Replace(a1, LICENSED_2, "--");
    StageBefore(a, q, LICENSED_3);
    StageBefore(a1, q, LICENSED_2);
    StageBefore(a2, q, LICENSED_1);
  }

  lemma StageBefore(a: string, q: string, p: string)
    requires Tail(q) && IsPattern(p)
    ensures Replace(a + q, p, "--") == Replace(a, p, "--") + q
  {
    NameSeam(a, q, p);
    ReplaceConcat(a, q, p, "--");
    LongerPatternsAbsent(q, p);
    ReplaceAbsent(q, p, "--");
  }

  /** The name is put behind the last piece of what precedes it. */
  lemma SplitBefore(a: string, q: string)
    requires Tail(q)
    ensures Split(a + q, "--") == AllButLast(Split(a, "--")) + [LastOf(Split(a, "--")) + q]
  {
    NameSeam(a, q, "--");
    SplitSeam(a, q, "--");
    SplitAbsent(q, "--");
  }

  function AllButLast(pieces: seq<string>): seq<string>
    requires |pieces| > 0
  {
    pieces[..|pieces| - 1]
  }

  function TrailingDashes(s: string): nat {
    if s != "" && s[|s| - 1] == '-' then TrailingDashes(s[..|s| - 1]) + 1 else 0
  }

  lemma {:induction false} TrailingDashesAfter(c: char, r: string)
    ensures TrailingDashes(r) <= |r|
    ensures TrailingDashes([c] + r) == if TrailingDashes(r) == |r| && c == '-' then |r| + 1 else TrailingDashes(r)
  {
    if r == "" {
      assert ([c] + r)[..0] == "";
    } else {
      var last, front := r[|r| - 1], r[..|r| - 1];
      TrailingDashesAfter(c, front);
      assert ([c] + r)[..|r|] == [c] + front;
    }
  }

  predicate EndsInDash(s: string) {
    |s| > 0 && s[|s| - 1] == '-'
  }

  /** The last piece is empty if the dashes at the end pair off, and starts with a dash left over if not. */
  predicate PairedOff(s: string, last: string) {
    if TrailingDashes(s) % 2 == 0 then last == "" else EndsInDash(last)
  }

  /** Dashes are paired off from the left. */
  lemma {:induction false} LastPieceParity(s: string)
    requires EndsInDash(s)
    ensures PairedOff(s, LastOf(Split(s, "--")))
  {
    if StartsWith(s, "--") {
      SplitHit(s, "--");
      if |s| > 2 {
        LastPieceParity(s[2..]);
      }
      PairInFront(s, s[2..]);
    } else {
      SplitMiss(s, "--");
      if |s| > 1 {
        LastPieceParity(s[1..]);
        if |Split(s[1..], "--")| == 1 {
          SinglePiece(s[1..], "--");
        }
        OneInFront(s, s[1..]);
      }
    }
  }

  lemma PairInFront(s: string, r: string)
    requires |s| >= 2 && s[..2] == "--" && r == s[2..]
    ensures TrailingDashes(s) % 2 == TrailingDashes(r) % 2
  {
    assert s[0] == s[..2][0] && s[1] == s[..2][1];
    assert s == ['-'] + (['-'] + r);
    TrailingDashesAfter('-', r);
    TrailingDashesAfter('-', ['-'] + r);
  }

  lemma OneInFront(s: string, r: string)
    requires |s| > 1 && !StartsWith(s, "--") && r == s[1..]
    ensures TrailingDashes(s) == TrailingDashes(r)
  {
    assert s == [s[0]] + r;
    TrailingDashesAfter(s[0], r);
    if s[0] == '-' {
      NotAllDashes(s);
    }
  }

  lemma NotAllDashes(s: string)
    requires |s| > 1 && !StartsWith(s, "--") && s[0] == '-'
    ensures TrailingDashes(s[1..]) < |s| - 1
  {
    assert s[..2] == [s[0], s[1]];
    TrailingDashesAfter(s[1], s[2..]);
    assert s[1..] == [s[1]] + s[2..];
  }

  lemma {:induction false} ReplaceKeepsDash(s: string, p: string)
    requires |p| > 0 && EndsInDash(s)
    ensures EndsInDash(Replace(s, p, "--"))
  {
    if StartsWith(s, p) {
      ReplaceHit(s, p, "--");
      if |s| > |p| {
        ReplaceKeepsDash(s[|p|..], p);
      }
    } else {
      ReplaceMiss(s, p, "--");
      if |s| > 1 {
        ReplaceKeepsDash(s[1..], p);
      }
    }
  }

  lemma RewriteKeepsDash(s: string)
    requires EndsInDash(s)
    ensures EndsInDash(Rewrite(s))
  {
    ReplaceKeepsDash(s, LICENSED_3);
    ReplaceKeepsDash(Replace(s, LICENSED_3, "--"), LICENSED_2);
    ReplaceKeepsDash(Replace(Replace(s, LICENSED_3, "--"), LICENSED_2, "--"), LICENSED_1);
  }

  /** The condition a prefix has to meet: after rewriting, the dashes in front of the name pair off. */
  predicate Separates(prefix: string, x: string) {
    TrailingDashes(Rewrite(prefix + x)) % 2 == 0
  }

  /** Whether the name becomes a piece of its own, or runs on behind a dash that was left over. */
  lemma PiecesOf(prefix: string, x: string, q: string)
    requires IsSeparator(x) && Tail(q)
    ensures var before := Split(Rewrite(prefix + x), "--");
            && Split(Rewrite(prefix + x + q), "--") == AllButLast(before) + [LastOf(before) + q]
            && if Separates(prefix, x) then LastOf(before) == "" else EndsInDash(LastOf(before))
  {
    RewriteBefore(prefix + x, q, prefix + x + q);
    SplitBefore(Rewrite(prefix + x), q);
    assert (prefix + x)[|prefix + x| - 1] == x[|x| - 1];
    RewriteKeepsDash(prefix + x);
    LastPieceParity(Rewrite(prefix + x));
  }

  lemma RewriteBothWays(prefix: string, x: string, q: string)
    requires Clean(prefix) && IsSeparator(x) && Tail(q)
    ensures Rewrite(prefix + x) + q == Rewrite(prefix) + ("--" + q) && Clean(Rewrite(prefix))
  {
    var s := prefix + x + q;
    RewriteAtSeparator(prefix, x, q, s);
    RewriteBefore(prefix + x, q, s);
  }

  lemma RewriteClean(prefix: string, x: string, q: string)
    requires Clean(prefix) && IsSeparator(x) && Tail(q)
    ensures Rewrite(prefix + x) == Rewrite(prefix) + "--" && Clean(Rewrite(prefix))
  {
    RewriteBothWays(prefix, x, q);
    SameFront(Rewrite(prefix + x), Rewrite(prefix), "--", q);
  }

  lemma SameFront(a: string, b: string, c: string, q: string)
    requires a + q == b + (c + q)
    ensures a == b + c
  {
    assert a == (a + q)[..|a|] && b + c == (b + (c + q))[..|b + c|];
  }

  /** A prefix that ends neither in a dash nor in `-licensed` separates from every separator. */
  lemma CleanPrefixSeparates(prefix: string, x: string)
    requires Clean(prefix) && IsSeparator(x)
    ensures Separates(prefix, x)
    ensures Split(Rewrite(prefix + x), "--") == Split(Rewrite(prefix), "--") + [""]
  {
    SingleTail("9");
    RewriteClean(prefix, x, "9");
    CleanDashes(Rewrite(prefix));
    SplitAfterClean(Rewrite(prefix));
  }

  lemma SplitAfterClean(r: string)
    requires Clean(r)
    ensures Split(r + "--", "--") == Split(r, "--") + [""]
  {
    CleanSplitSeam(r, "");
    SplitConcat(r, "", "--");
    assert "--" + "" == "--";
  }

  lemma SingleTail(q: string)
    requires q == "9"
    ensures Tail(q)
  {
    forall i
      ensures !OccursAt(q, "--", i) && !OccursAt(q, LICENSED_1, i)
    {}
  }

  lemma CleanDashes(r: string)
    requires Clean(r)
    ensures TrailingDashes(r + "--") == 2
  {
    assert (r + "--")[..|r| + 1] == r + "-" && (r + "-")[..|r|] == r;
    assert TrailingDashes(r + "--") == TrailingDashes(r + "-") + 1;
    assert TrailingDashes(r + "-") == TrailingDashes(r) + 1;
    if |r| > 0 && r[|r| - 1] == '-' {
      DashEnding(r);
      assert false;
    }
  }

  // ---------------------------------------------------------------------------------------------
  // The pieces in order

  lemma {:induction false} TryInOrder(k: Codec, pieces: seq<string>, last: string)
    requires FromPieces(k, pieces) == None
    ensures FromPieces(k, pieces + [last]) == FromPiece(k, last)
  {
    if pieces == [] {
      assert pieces + [last] == [last];
      assert [last][1..] == [];
    } else {
      TryInOrder(k, pieces[1..], last);
      assert (pieces + [last])[1..] == pieces[1..] + [last];
    }
  }

  // ---------------------------------------------------------------------------------------------
  // The name itself

  /** What Windows puts behind a copy: white space, an opening parenthesis, and no separator. */
  predicate IsCopySuffix(d: string) {
    || d == ""
    || (exists n | 0 <= n < |d| ::
          && d[n] == '('
          && (forall i | 0 <= i < n :: IsSpace(d[i]))
          && (forall i | 0 <= i < |d| :: d[i] != '-' && d[i] != '=' && d[i] != '.'))
  }

  /** What serialised licences are like: seven-bit, and closed by the object's brace. */
  predicate IsAsciiObject(json: seq<Byte>) {
    IsAscii(json) && |json| > 0 && json[|json| - 1] == 0x7D
  }

  lemma NameAlphabet(json: seq<Byte>)
    ensures InAlphabet(GenName(json))
    ensures |json| > 0 ==> |GenName(json)| >= 2
  {
    EncodeAlphabet(json);
  }

  /** Dashes only as the last of four. */
  predicate QuadDashes(e: string) {
    forall i | 0 <= i < |e| && e[i] == '-' :: i % 4 == 3
  }

  lemma DashPosition(e: string, d: string, q: string, i: nat)
    requires QuadDashes(e) && '-' !in d && q == Reverse(e) + d && i < |q| && q[i] == '-'
    ensures (|e| - 1 - i) % 4 == 3
  {
    assert i < |e| && e[|e| - 1 - i] == '-';
  }

  /** Dashes are a multiple of four apart, so neither separator fits between them. */
  lemma NoSeparatorInside(e: string, d: string, q: string, p: string, i: int)
    requires QuadDashes(e) && '-' !in d && q == Reverse(e) + d && (p == "--" || p == LICENSED_1)
    ensures !OccursAt(q, p, i)
  {
    if OccursAt(q, p, i) {
      OccurrenceChar(q, p, i, 0);
      OccurrenceChar(q, p, i, |p| - 1);
      DashPosition(e, d, q, i);
      DashPosition(e, d, q, i + |p| - 1);
      NotBothLast(|e| - 1 - i, |p| - 1);
    }
  }

  lemma NotBothLast(m: int, k: int)
    requires m % 4 == 3 && (k == 1 || k == 9)
    ensures (m - k) % 4 != 3
  {}

  function Pads(n: nat): string {
    seq(n, _ => '=')
  }

  /** A name as it may stand in a file name: with the padding of the encoding in front, or without. */
  function Name(bytes: seq<Byte>, pads: nat): string {
    Pads(pads) + GenName(bytes)
  }

  /** The padding base64 asks for. */
  function Padding(bytes: seq<Byte>): nat {
    if |bytes| % 3 == 0 then 0 else 3 - |bytes| % 3
  }

  lemma NameUnpadded(bytes: seq<Byte>)
    ensures Name(bytes, 0) == GenName(bytes)
  {}

  /** Padding first, then the alphabet. */
  predicate NameShaped(name: string, pads: nat) {
    && |name| >= 2 && pads < |name|
    && (forall i | 0 <= i < pads :: name[i] == '=')
    && (forall i | pads <= i < |name| :: Value(name[i]).Some?)
  }

  lemma NameIsShaped(bytes: seq<Byte>, pads: nat)
    requires |bytes| > 0
    ensures NameShaped(Name(bytes, pads), pads)
  {
    NameAlphabet(bytes);
  }

  lemma NameIsReversed(bytes: seq<Byte>, pads: nat)
    ensures Name(bytes, pads) == Reverse(Encode(bytes) + Pads(pads))
  {}

  lemma PadsAreNoDashes(e: string, pads: nat)
    requires QuadDashes(e)
    ensures QuadDashes(e + Pads(pads))
  {}

  lemma FirstOfName(json: seq<Byte>, pads: nat)
    requires IsAsciiObject(json)
    ensures |Name(json, pads)| > 0 && Name(json, pads)[0] !in LICENSED_1
  {
    BraceEnding(json);
    if pads == 0 {
      NameUnpadded(json);
      assert GenName(json)[0] == Encode(json)[|Encode(json)| - 1];
    }
  }

  lemma NameIsTail(json: seq<Byte>, pads: nat, d: string)
    requires IsAsciiObject(json) && IsCopySuffix(d)
    ensures Tail(Name(json, pads) + d)
  {
    var e, q := Encode(json) + Pads(pads), Name(json, pads) + d;
    DashesAreLastInQuad(json);
    PadsAreNoDashes(Encode(json), pads);
    NameIsReversed(json, pads);
    FirstOfName(json, pads);
    NoSeparatorsInside(e, d, q);
  }

  lemma NoSeparatorsInside(e: string, d: string, q: string)
    requires QuadDashes(e) && '-' !in d && q == Reverse(e) + d
    ensures Absent(q, "--") && Absent(q, LICENSED_1)
  {
    forall i
      ensures !OccursAt(q, "--", i) && !OccursAt(q, LICENSED_1, i)
    {
      NoSeparatorInside(e, d, q, "--", i);
      NoSeparatorInside(e, d, q, LICENSED_1, i);
    }
  }

  lemma NameBackwards(bytes: seq<Byte>, pads: nat)
    ensures Reverse(Name(bytes, pads)) == Encode(bytes) + Pads(pads)
  {}

  // ---------------------------------------------------------------------------------------------
  // Padded decoding

  lemma PadsNeverDecode(e: string, n: nat)
    requires n > 0
    ensures Decode(e + Pads(n)) == None
  {
    var r := e + Pads(n);
    assert r[|e|] == '=';
    if Decode(r).Some? {
      DecodesOnlyAlphabet(r);
      assert false;
    }
  }

  lemma LastNotPad(bytes: seq<Byte>)
    requires |bytes| > 0
    ensures |Encode(bytes)| > 0 && Encode(bytes)[|Encode(bytes)| - 1] != '='
  {
    EncodeAlphabet(bytes);
    EncodeAt(bytes, |Encode(bytes)| - 1);
  }

  /** With padding the encoding decodes exactly if it is the padding asked for. */
  lemma PaddedDecodes(bytes: seq<Byte>, n: nat)
    requires |bytes| > 0 && n > 0
    ensures DecodePadded(Encode(bytes) + Pads(n)) == if n == Padding(bytes) then Some(bytes) else None
  {
    EncodeLength(bytes);
    LastNotPad(bytes);
    DecodeEncode(bytes);
    PaddedText(Encode(bytes), bytes, n);
  }

  lemma PaddedText(e: string, bytes: seq<Byte>, n: nat)
    requires n > 0 && |e| > 0 && e[|e| - 1] != '=' && Decode(e) == Some(bytes)
    requires |e| % 4 == if |bytes| % 3 == 0 then 0 else |bytes| % 3 + 1
    ensures DecodePadded(e + Pads(n)) == if n == Padding(bytes) then Some(bytes) else None
  {
    PaddingIff(|bytes|, |e|, n);
    PadsTaken(e, n);
  }

  lemma PadsTaken(e: string, n: nat)
    requires n > 0 && |e| > 0 && e[|e| - 1] != '='
    ensures DecodePadded(e + Pads(n)) == if n <= 2 && (|e| + n) % 4 == 0 then Decode(e) else None
  {
    if (|e| + n) % 4 == 0 {
      if n == 1 {
        OnePad(e, e + Pads(1));
      } else {
        TwoPads(e, n, e + Pads(n));
        if n > 2 {
          PadsNeverDecode(e, n - 2);
        } else {
          assert e + Pads(0) == e;
        }
      }
    }
  }

  lemma OnePad(e: string, r: string)
    requires r == e + Pads(1) && |r| % 4 == 0 && |e| > 0 && e[|e| - 1] != '='
    ensures DecodePadded(r) == Decode(e)
  {
    assert r[|r| - 1] == '=' && r[..|r| - 1] == e;
    assert r[|r| - 2..][0] == e[|e| - 1];
  }

  lemma TwoPads(e: string, n: nat, r: string)
    requires n >= 2 && r == e + Pads(n) && |r| % 4 == 0
    ensures DecodePadded(r) == Decode(e + Pads(n - 2))
  {
    assert r[|r| - 2..] == "==" && r[..|r| - 2] == e + Pads(n - 2);
  }

  /** One or two pads make whole quads exactly if they are the right padding. */
  lemma PaddingIff(length: nat, encoded: nat, n: nat)
    requires n > 0 && encoded % 4 == if length % 3 == 0 then 0 else length % 3 + 1
    ensures n <= 2 && (encoded + n) % 4 == 0 <==> n == if length % 3 == 0 then 0 else 3 - length % 3
  {}

  /** What a padded or unpadded name is read as. */
  lemma NameReads(k: Codec, bytes: seq<Byte>, pads: nat)
    requires |bytes| > 0
    ensures FromConfigString(k, Name(bytes, pads))
         == if pads == 0 || pads == Padding(bytes) then FromBytes(k, bytes) else None
  {
    var e := Encode(bytes);
    NameBackwards(bytes, pads);
    if pads == 0 {
      assert e + Pads(0) == e;
      DecodeEncode(bytes);
    } else {
      PadsNeverDecode(e, pads);
      PaddedDecodes(bytes, pads);
    }
  }

  /** A licence may also be signed: what the signature covers is then read. */
  lemma SignedNameReads(k: Codec, signed: seq<Byte>, json: seq<Byte>, server: CustomServer, pads: nat)
    requires |signed| > 0 && (pads == 0 || pads == Padding(signed))
    requires k.parse(signed) == None && k.verify(signed) == Some(json) && k.parse(json) == Some(server)
    ensures FromConfigString(k, Name(signed, pads)) == Some(server)
  {
    NameReads(k, signed, pads);
  }

  lemma ParenthesisNeverDecodes(k: Codec, s: string)
    requires '(' in s
    ensures FromConfigString(k, s) == None
  {
    var r := Reverse(s);
    var i :| 0 <= i < |s| && s[i] == '(';
    assert r[|s| - 1 - i] == '(';
    if Decode(r).Some? {
      DecodesOnlyAlphabet(r);
      assert false;
    }
    if DecodePadded(r).Some? {
      var t := if |r| >= 2 && r[|r| - 2..] == "==" then r[..|r| - 2]
               else if |r| >= 1 && r[|r| - 1] == '=' then r[..|r| - 1] else r;
      assert |r| >= 2 && r[|r| - 2..] == "==" ==> r[|r| - 2] == r[|r| - 2..][0] && r[|r| - 1] == r[|r| - 2..][1];
      assert |s| - 1 - i < |t| && t[|s| - 1 - i] == '(';
      DecodesOnlyAlphabet(t);
      assert false;
    }
  }

  /** The last piece yields the licence, copy suffix or not. */
  lemma NamePiece(k: Codec, n: string, pads: nat, server: CustomServer, d: string)
    requires NameShaped(n, pads) && FromConfigString(k, n) == Some(server) && IsCopySuffix(d)
    ensures FromPiece(k, n + d) == Some(server)
  {
    var q := n + d;
    assert !IsSpace(n[0]) && !IsSpace(n[|n| - 1]);
    if d == "" {
      TrimTrailing(n, "");
      assert q == n + "";
    } else {
      var m :| 0 <= m < |d| && d[m] == '(' && forall i | 0 <= i < m :: IsSpace(d[i]);
      assert q[|n| + m] == '(';
      TrimKeeps(q, '(');
      ParenthesisNeverDecodes(k, Trim(q));
      FirstCut(n, d, m);
      TrimTrailing(n, d[..m]);
    }
  }

  lemma FirstCut(n: string, d: string, m: nat)
    requires '(' !in n && m < |d| && d[m] == '(' && forall i | 0 <= i < m :: IsSpace(d[i])
    ensures Split(n + d, "(")[0] == n + d[..m]
  {
    var a, b := n + d[..m], d[m + 1..];
    assert n + d == a + ("(" + b);
    forall i
      ensures !OccursAt(a, "(", i)
    {
      if OccursAt(a, "(", i) {
        OccurrenceChar(a, "(", i, 0);
        assert false;
      }
    }
    assert NoStraddle(a, "(" + b, "(");
    SplitConcat(a, b, "(");
    SplitAbsent(a, "(");
  }

  // ---------------------------------------------------------------------------------------------
  // The whole file name

  predicate IsExtension(e: string) {
    Lower(e) == "" || Lower(e) == ".exe" || Lower(e) == ".exe.exe"
  }

  /** None of the last four characters is a dot. */
  predicate DotFreeEnd(s: string) {
    |s| >= 4 && forall i | |s| - 4 <= i < |s| :: s[i] != '.'
  }

  lemma ExtensionChars(s: string, e: string, t: string, k: nat)
    requires EndsWith(Lower(s + e), t) && k < |t|
    ensures k < |s + e| && LowerChar((s + e)[|s + e| - 1 - k]) == t[|t| - 1 - k]
  {
    LastChar(Lower(s + e), t, k);
  }

  lemma LowerDot(c: char)
    ensures LowerChar(c) == '.' <==> c == '.'
  {}

  lemma LowerConcat(s: string, e: string)
    ensures Lower(s + e) == Lower(s) + Lower(e)
  {}

  /** Stripping takes off exactly the extension. */
  lemma StripsExtension(s: string, e: string)
    requires DotFreeEnd(s) && IsExtension(e)
    ensures StripExe(s + e) == s
  {
    LowerConcat(s, e);
    assert |e| == |Lower(e)|;
    var l := Lower(s + e);
    assert (s + e)[..|s|] == s;
    if |e| == 8 {
      assert l[|l| - 8..] == Lower(e);
    } else if |e| == 4 {
      assert l[|l| - 4..] == Lower(e);
      NotEnding(s, e, ".exe.exe", 7);
    } else {
      NotEnding(s, e, ".exe.exe", 3);
      NotEnding(s, e, ".exe", 3);
    }
  }

  lemma NotEnding(s: string, e: string, t: string, k: nat)
    requires DotFreeEnd(s) && k < |t| && t[|t| - 1 - k] == '.' && |e| <= k < |e| + 4
    ensures !EndsWith(Lower(s + e), t)
  {
    if EndsWith(Lower(s + e), t) {
      ExtensionChars(s, e, t, k);
      LowerDot((s + e)[|s + e| - 1 - k]);
      assert false;
    }
  }

  lemma LowerEquals(c: char)
    ensures LowerChar(c) == '=' <==> c == '='
  {}

  /** No equals sign stands right behind a letter `t`. */
  predicate NoHostEnd(t: string) {
    forall i | 0 <= i < |t| && t[i] == '=' :: i > 0 && LowerChar(t[i - 1]) != 't'
  }

  /** Only the prefix can hold `host=`. */
  lemma NoHostBehind(a: string, t: string)
    requires !Contains(Lower(a), "host=") && NoHostEnd(t)
    ensures !Contains(Lower(a + t), "host=")
  {
    forall i | 0 <= i <= |Lower(a + t)|
      ensures !OccursAt(Lower(a + t), "host=", i)
    {
      if OccursAt(Lower(a + t), "host=", i) {
        OccurrenceChar(Lower(a + t), "host=", i, 3);
        OccurrenceChar(Lower(a + t), "host=", i, 4);
        LowerEquals((a + t)[i + 4]);
        LowerConcat(a, t);
        assert i + 5 <= |a|;
        HostInPrefix(a, t, i);
        assert false;
      }
    }
  }

  lemma HostInPrefix(a: string, t: string, i: nat)
    requires OccursAt(Lower(a + t), "host=", i) && i + 5 <= |a|
    ensures Contains(Lower(a), "host=")
  {
    LowerConcat(a, t);
    assert (Lower(a) + Lower(t))[i..i + 5] == Lower(a)[i..i + 5];
    assert OccursAt(Lower(a), "host=", i);
  }

  /** The name, with its separator in front, has no dot in its last four characters, and its padding
      stands behind a dash. */
  lemma BodyChars(x: string, n: string, pads: nat, d: string)
    requires IsSeparator(x) && IsCopySuffix(d) && NameShaped(n, pads)
    ensures |x + (n + d)| >= 4 && '.' !in x + (n + d)
    ensures NoHostEnd(x + (n + d))
  {
    var t := x + (n + d);
    forall i | 0 <= i < |t|
      ensures t[i] != '.' && (t[i] == '=' ==> |x| <= i < |x| + pads)
    {
      if |x| <= i < |x| + |n| {
        assert t[i] == n[i - |x|];
      } else if i >= |x| + |n| {
        assert t[i] == d[i - |x| - |n|];
      }
    }
    forall i | 0 <= i < |t| && t[i] == '='
      ensures i > 0 && LowerChar(t[i - 1]) != 't'
    {
      if i == |x| {
        assert t[i - 1] == x[|x| - 1] == '-';
      } else {
        assert t[i - 1] == n[i - 1 - |x|] == '=';
      }
    }
  }

  /** The reader gets down to the pieces of what is left without the extension. */
  lemma ReadsPieces(k: Codec, n: string, pads: nat, prefix: string, x: string, d: string, e: string)
    requires NameShaped(n, pads) && !Contains(Lower(prefix), "host=") && IsSeparator(x) && IsCopySuffix(d) && IsExtension(e)
    ensures FromString(k, prefix + x + (n + d) + e) == FromPieces(k, Split(Rewrite(prefix + x + (n + d)), "--"))
  {
    var q := n + d;
    var body := prefix + x + q;
    assert body == prefix + (x + q);
    BodyChars(x, n, pads, d);
    assert DotFreeEnd(body) by {
      forall i | |body| - 4 <= i < |body|
        ensures body[i] != '.'
      {
        assert body[i] == (x + q)[i - |prefix|];
      }
    }
    StripsExtension(body, e);
    NoHostBehind(prefix, x + q);
  }

  /** What stands in front of the separator holds no licence of its own. */
  predicate NothingBefore(k: Codec, prefix: string, x: string) {
    FromPieces(k, AllButLast(Split(Rewrite(prefix + x), "--"))) == None
  }

  /** Any name that is read on its own is read from a file name, if it holds no separator. */
  lemma NameRoundTrip(k: Codec, n: string, pads: nat, server: CustomServer, prefix: string, x: string, d: string, e: string)
    requires NameShaped(n, pads) && FromConfigString(k, n) == Some(server) && Tail(n + d)
    requires IsSeparator(x) && Separates(prefix, x) && NothingBefore(k, prefix, x) && !Contains(Lower(prefix), "host=")
    requires IsCopySuffix(d) && IsExtension(e)
    ensures FromString(k, prefix + x + (n + d) + e) == Some(server)
  {
    ReadsPieces(k, n, pads, prefix, x, d, e);
    PiecesOf(prefix, x, n + d);
    assert "" + (n + d) == n + d;
    TryInOrder(k, AllButLast(Split(Rewrite(prefix + x), "--")), n + d);
    NamePiece(k, n, pads, server, d);
  }

  /**
    Every licence whose JSON is seven-bit comes back from a file name: with its padding or without, behind
    a prefix that is no licence itself and leaves no dash over, behind any of the separators, with or
    without the suffix of a copy, with or without an extension.
  */
  lemma RoundTrip(k: Codec, json: seq<Byte>, pads: nat, server: CustomServer, prefix: string, x: string, d: string, e: string)
    requires FromBytes(k, json) == Some(server) && IsAsciiObject(json) && (pads == 0 || pads == Padding(json))
    requires IsSeparator(x) && Separates(prefix, x) && NothingBefore(k, prefix, x) && !Contains(Lower(prefix), "host=")
    requires IsCopySuffix(d) && IsExtension(e)
    ensures FromString(k, prefix + x + (Name(json, pads) + d) + e) == Some(server)
  {
    NameIsShaped(json, pads);
    NameReads(k, json, pads);
    NameIsTail(json, pads, d);
    NameRoundTrip(k, Name(json, pads), pads, server, prefix, x, d, e);
  }

  /** For the usual prefixes the two conditions come down to the prefix alone. */
  lemma CleanRoundTrip(k: Codec, json: seq<Byte>, pads: nat, server: CustomServer, prefix: string, x: string, d: string, e: string)
    requires FromBytes(k, json) == Some(server) && IsAsciiObject(json) && (pads == 0 || pads == Padding(json))
    requires Clean(prefix) && !Contains(Lower(prefix), "host=") && FromLicensed(k, prefix) == None
    requires IsSeparator(x) && IsCopySuffix(d) && IsExtension(e)
    ensures FromString(k, prefix + x + (Name(json, pads) + d) + e) == Some(server)
  {
    CleanPrefixSeparates(prefix, x);
    RoundTrip(k, json, pads, server, prefix, x, d, e);
  }
}
