/**
  Chunked scans over large binaries: searching a marker, and finding the highest GLIBC symbol version.
  A file is the concatenation of the chunks it is read in; bytes are characters.
*/
module BinaryScan {
  import opened Prelude
  import opened Text

  /** `chunk[-n:]`, which is the whole chunk for `n == 0`. */
  function Last(chunk: string, n: nat): (tail: string)
    ensures |tail| <= |chunk| && tail == chunk[|chunk| - |tail|..]
    ensures |chunk| >= n ==> |tail| >= n
  {
    if n == 0 || n >= |chunk| then chunk else chunk[|chunk| - n..]
  }

  /** `read` gives nothing only at the end, and every chunk but the last is at least `n` long. */
  predicate Chunked(chunks: seq<string>, n: nat) {
    && (forall i | 0 <= i < |chunks| :: |chunks[i]| > 0)
    && (forall i | 0 <= i < |chunks| - 1 :: |chunks[i]| >= n)
  }

  /** `tail` is an end of `before`, long enough to complete whatever straddles it by `n` at most. */
  ghost predicate Overlap(before: string, tail: string, n: nat) {
    && |tail| <= |before| && tail == before[|before| - |tail|..]
    && (|tail| >= n || tail == before)
  }

  lemma NextOverlap(before: string, chunk: string, n: nat)
    requires |chunk| >= n
    ensures Overlap(before + chunk, Last(chunk, n), n)
  {}

  lemma {:induction false} FlattenPrefix(chunks: seq<string>, i: nat)
    requires i <= |chunks|
    ensures Flatten(chunks[..i]) <= Flatten(chunks)
    decreases |chunks| - i
  {
    if i < |chunks| {
      FlattenPrefix(chunks, i + 1);
      OneMoreChunk(chunks, i);
    } else {
      assert chunks[..i] == chunks;
    }
  }

  lemma OneMoreChunk(chunks: seq<string>, i: nat)
    requires i < |chunks|
    ensures Flatten(chunks[..i + 1]) == Flatten(chunks[..i]) + chunks[i]
  {
    assert chunks[..i + 1][..i] == chunks[..i];
  }

  // ---------------------------------------------------------------------------------------------
  // Marker search

  /** A slice holds an occurrence exactly where the whole does. */
  lemma SliceOccurs(s: string, lo: nat, hi: nat, p: string, i: nat)
    requires lo <= hi <= |s| && i + |p| <= hi - lo
    ensures OccursAt(s[lo..hi], p, i) <==> OccursAt(s, p, lo + i)
  {
    var n := i + |p|;
    var a, b := s[lo..hi][i..n], s[lo + i..lo + n];
    assert |a| == |b|;
    forall k | 0 <= k < |a|
      ensures a[k] == b[k]
    {
      assert s[lo..hi][i + k] == s[lo + (i + k)];
    }
    assert a == b && lo + i + |p| == lo + n;
  }

  /** An occurrence in `before + chunk` is in `before`, or whole in the overlap and the chunk. */
  lemma SeenInWindow(before: string, tail: string, chunk: string, marker: string)
    requires |marker| > 0 && Overlap(before, tail, |marker| - 1)
    ensures Contains(before + chunk, marker) <==> Contains(before, marker) || Contains(tail + chunk, marker)
  {
    var all, shift := before + chunk, |before| - |tail|;
    assert all[shift..|all|] == tail + chunk && all[0..|before|] == before;
    forall i | 0 <= i <= |all| && OccursAt(all, marker, i)
      ensures Contains(before, marker) || Contains(tail + chunk, marker)
    {
      if i + |marker| <= |before| {
        SliceOccurs(all, 0, |before|, marker, i);
      } else {
        SliceOccurs(all, shift, |all|, marker, i - shift);
      }
    }
    forall i | 0 <= i <= |before| && OccursAt(before, marker, i)
      ensures Contains(all, marker)
    {
      SliceOccurs(all, 0, |before|, marker, i);
    }
    forall i | 0 <= i <= |tail + chunk| && OccursAt(tail + chunk, marker, i)
      ensures Contains(all, marker)
    {
      SliceOccurs(all, shift, |all|, marker, i);
    }
  }

  lemma PrefixContains(s: string, t: string, marker: string)
    requires s <= t && Contains(s, marker)
    ensures Contains(t, marker)
  {
    var i :| 0 <= i <= |s| && OccursAt(s, marker, i);
    assert t[i..i + |marker|] == s[i..i + |marker|];
    assert OccursAt(t, marker, i);
  }

  /** `_carries_drmtap_marker`: the chunked search finds what a search of the whole file would. */
  method CarriesMarker(chunks: seq<string>, marker: string) returns (found: bool)
    requires |marker| > 0 && Chunked(chunks, |marker| - 1)
    ensures found <==> Contains(Flatten(chunks), marker)
  {
    var tail := "";
    for i := 0 to |chunks|
      invariant !Contains(Flatten(chunks[..i]), marker)
      invariant i < |chunks| ==> Overlap(Flatten(chunks[..i]), tail, |marker| - 1)
    {
      var chunk := chunks[i];
      OneMoreChunk(chunks, i);
      SeenInWindow(Flatten(chunks[..i]), tail, chunk, marker);
      if Contains(tail + chunk, marker) {
        FlattenPrefix(chunks, i + 1);
        PrefixContains(Flatten(chunks[..i + 1]), Flatten(chunks), marker);
        return true;
      }
      if i < |chunks| - 1 {
        NextOverlap(Flatten(chunks[..i]), chunk, |marker| - 1);
      }
      tail := Last(chunk, |marker| - 1);
    }
    assert chunks[..|chunks|] == chunks;
    found := false;
  }

  // ---------------------------------------------------------------------------------------------
  // Symbol versions

  const TAG: string := "GLIBC_2."
  const LONGEST: nat := 17
  const TAIL: nat := 16

  predicate IsDigit(c: char) {
    '0' <= c <= '9'
  }

  /** The end of the digits that start at `i`. */
  function DigitsEnd(s: string, i: nat): (e: nat)
    requires i <= |s|
    ensures i <= e <= |s|
    ensures forall j | i <= j < e :: IsDigit(s[j])
    ensures e < |s| ==> !IsDigit(s[e])
    decreases |s| - i
  {
    if i < |s| && IsDigit(s[i]) then DigitsEnd(s, i + 1) else i
  }

  function Number(s: string, from: nat, to: nat): nat
    requires from <= to <= |s| && forall j | from <= j < to :: IsDigit(s[j])
  {
    if from == to then 0
    else
      assert IsDigit(s[to - 1]);
      Number(s, from, to - 1) * 10 + (s[to - 1] as int - '0' as int)
  }

  predicate MatchAt(s: string, i: nat) {
    OccursAt(s, TAG, i) && i + 8 < |s| && IsDigit(s[i + 8])
  }

  function MatchEnd(s: string, i: nat): nat
    requires MatchAt(s, i)
  {
    DigitsEnd(s, i + 8)
  }

  /** The version matched at a position, 0 where there is no match. */
  function Score(s: string, i: nat): nat {
    if MatchAt(s, i) then Number(s, i + 8, MatchEnd(s, i)) else 0
  }

  function MaxScore(s: string, n: nat): nat {
    if n == 0 then 0 else Max(MaxScore(s, n - 1), Score(s, n - 1))
  }

  function Max(a: nat, b: nat): nat {
    if a < b then b else a
  }

  /** The highest version among all matches of a file. */
  function Highest(s: string): nat {
    MaxScore(s, |s|)
  }

  lemma {:induction false} MaxScoreBounds(s: string, n: nat, i: nat)
    requires i < n
    ensures Score(s, i) <= MaxScore(s, n)
    decreases n
  {
    if i < n - 1 {
      MaxScoreBounds(s, n - 1, i);
    }
  }

  lemma {:induction false} MaxScoreAttained(s: string, n: nat) returns (i: nat)
    requires MaxScore(s, n) > 0
    ensures i < n && Score(s, i) == MaxScore(s, n)
  {
    if Score(s, n - 1) == MaxScore(s, n) {
      i := n - 1;
    } else {
      i := MaxScoreAttained(s, n - 1);
    }
  }

  /** Matches never overlap, so scanning them left to right misses none. */
  lemma MatchesAreDisjoint(s: string, i: nat, j: nat)
    requires MatchAt(s, i) && MatchAt(s, j) && i < j
    ensures MatchEnd(s, i) <= j
  {
    TagAt(s, j, 0);
    if j < i + 8 {
      TagAt(s, i, j - i);
      assert false;
    }
  }

  lemma TagAt(s: string, i: nat, k: nat)
    requires OccursAt(s, TAG, i) && k < 8
    ensures s[i + k] == TAG[k] && (k > 0 ==> s[i + k] != 'G') && !IsDigit(TAG[0])
  {
    assert s[i..i + 8][k] == s[i + k];
  }

  /** Every further digit makes a number at least ten times as large. */
  lemma {:induction false} NumberGrows(s: string, from: nat, to: nat, to': nat)
    requires from <= to <= to' <= |s| && forall j | from <= j < to' :: IsDigit(s[j])
    ensures Number(s, from, to) <= Number(s, from, to')
    ensures to < to' ==> 10 * Number(s, from, to) <= Number(s, from, to')
  {
    if to < to' {
      NumberGrows(s, from, to, to' - 1);
    }
  }

  lemma {:induction false} NumberShifts(s: string, t: string, shift: nat, from: nat, to: nat)
    requires from <= to <= |s| && to + shift <= |t|
    requires forall j | from <= j < to :: IsDigit(s[j]) && t[j + shift] == s[j]
    requires forall j | from + shift <= j < to + shift :: IsDigit(t[j])
    ensures Number(t, from + shift, to + shift) == Number(s, from, to)
  {
    if from < to {
      NumberShifts(s, t, shift, from, to - 1);
    }
  }

  /** The digits of a window end no later than those of the file, and at the same place if the
      window goes on or the file's digits end within it. */
  lemma DigitsInWindow(s: string, t: string, shift: nat, i: nat)
    requires i <= |s| && shift + |s| <= |t| && t[shift..shift + |s|] == s
    ensures DigitsEnd(s, i) + shift <= DigitsEnd(t, i + shift)
    ensures DigitsEnd(t, i + shift) <= shift + |s| ==> DigitsEnd(t, i + shift) == DigitsEnd(s, i) + shift
  {
    var e, e' := DigitsEnd(s, i), DigitsEnd(t, i + shift);
    WindowChars(s, t, shift);
    assert e' < shift + |s| && e' >= shift ==> t[e'] == s[e' - shift];
    assert e < |s| ==> t[e + shift] == s[e];
  }

  lemma WindowChars(s: string, t: string, shift: nat)
    requires shift + |s| <= |t| && t[shift..shift + |s|] == s
    ensures forall j | 0 <= j < |s| :: t[j + shift] == s[j]
  {
    forall j | 0 <= j < |s|
      ensures t[j + shift] == s[j]
    {
      assert t[shift..shift + |s|][j] == t[j + shift];
    }
  }

  /** A match in a window is one of the file with at most its value, and with less if it is cut. */
  lemma ScoreInWindow(s: string, t: string, shift: nat, i: nat)
    requires shift + |s| <= |t| && t[shift..shift + |s|] == s && MatchAt(s, i)
    ensures MatchAt(t, i + shift) && Score(s, i) <= Score(t, i + shift)
    ensures MatchEnd(t, i + shift) <= shift + |s| ==> Score(s, i) == Score(t, i + shift)
    ensures MatchEnd(t, i + shift) > shift + |s| ==> 10 * Score(s, i) <= Score(t, i + shift)
  {
    WindowChars(s, t, shift);
    assert t[i + shift..i + shift + 8] == s[i..i + 8];
    DigitsInWindow(s, t, shift, i + 8);
    var e := MatchEnd(s, i);
    NumberShifts(s, t, shift, i + 8, e);
    NumberGrows(t, i + 8 + shift, e + shift, MatchEnd(t, i + shift));
  }

  /** A match of the file that ends in the chunk is whole in the window. */
  lemma MatchReachesWindow(file: string, shift: nat, window: string, p: nat)
    requires shift + |window| <= |file| && file[shift..shift + |window|] == window
    requires MatchAt(file, p) && shift <= p && MatchEnd(file, p) <= shift + |window|
    ensures MatchAt(window, p - shift) && Score(window, p - shift) == Score(file, p)
  {
    WindowChars(window, file, shift);
    var i := p - shift;
    assert MatchEnd(file, p) > p + 8;
    assert window[i..i + 8] == file[p..p + 8];
    ScoreInWindow(window, file, shift, i);
  }

  /** The best score of one window. */
  method ScanWindow(window: string, best: nat) returns (best': nat)
    ensures best' == Max(best, Highest(window))
  {
    best' := best;
    for i := 0 to |window|
      invariant best' == Max(best, MaxScore(window, i))
    {
      if MatchAt(window, i) {
        var v := Number(window, i + 8, MatchEnd(window, i));
        if v > best' {
          best' := v;
        }
      }
    }
  }

  /** The offset at which chunk `i` starts. */
  function Boundary(chunks: seq<string>, i: nat): nat
    requires i <= |chunks|
  {
    |Flatten(chunks[..i])|
  }

  /** A match that a chunk boundary cuts and whose tag starts in front of the overlap. */
  predicate Cut(chunks: seq<string>, p: nat)
    requires MatchAt(Flatten(chunks), p)
  {
    exists i | 0 < i < |chunks| :: p + TAIL < Boundary(chunks, i) < MatchEnd(Flatten(chunks), p)
  }

  /** A match of at most seventeen bytes is never cut. */
  predicate ShortMatches(file: string) {
    forall p | 0 <= p < |file| :: MatchAt(file, p) ==> MatchEnd(file, p) - p <= LONGEST
  }

  lemma {:induction false} BoundariesGrow(chunks: seq<string>, i: nat, j: nat)
    requires i <= j <= |chunks|
    ensures Boundary(chunks, i) <= Boundary(chunks, j)
  {
    if i < j {
      BoundariesGrow(chunks, i, j - 1);
      OneMoreChunk(chunks, j - 1);
    }
  }

  lemma {:induction false} ChunkOf(chunks: seq<string>, n: nat, e: nat) returns (i: nat)
    requires n <= |chunks| && 0 < e <= Boundary(chunks, n)
    ensures i < n && Boundary(chunks, i) < e <= Boundary(chunks, i + 1)
  {
    if e <= Boundary(chunks, n - 1) {
      i := ChunkOf(chunks, n - 1, e);
    } else {
      i := n - 1;
    }
  }

  predicate IsHighest(file: string, p: nat) {
    MatchAt(file, p) && Score(file, p) == Highest(file)
  }

  /** A match with the highest version lies within two offsets. */
  ghost predicate HighestWithin(file: string, lo: nat, hi: nat) {
    exists p | lo <= p :: IsHighest(file, p) && MatchEnd(file, p) <= hi
  }

  /** Window `i` starts with the overlap, if there is one. */
  function WindowStart(chunks: seq<string>, i: nat): nat
    requires i <= |chunks|
  {
    if Boundary(chunks, i) < TAIL then 0 else Boundary(chunks, i) - TAIL
  }

  ghost predicate HoldsHighest(chunks: seq<string>, i: nat)
    requires i < |chunks|
  {
    HighestWithin(Flatten(chunks), WindowStart(chunks, i), Boundary(chunks, i + 1))
  }

  ghost predicate SeenHighest(chunks: seq<string>, n: nat)
    requires n <= |chunks|
  {
    exists i | 0 <= i < n :: HoldsHighest(chunks, i)
  }

  /** Some match with the highest version is not cut. */
  ghost predicate HighestUncut(chunks: seq<string>) {
    exists p | 0 <= p :: IsHighest(Flatten(chunks), p) && !Cut(chunks, p)
  }

  lemma WindowOfFile(file: string, before: string, tail: string, chunk: string)
    requires before + chunk <= file && Overlap(before, tail, TAIL)
    ensures file[|before| - |tail|..|before + chunk|] == tail + chunk
  {
    var lo, hi := |before| - |tail|, |before + chunk|;
    assert file[..hi] == before + chunk;
    assert (before + chunk)[lo..] == tail + chunk;
    assert file[lo..hi] == file[..hi][lo..];
  }

  lemma WindowNeverExceeds(file: string, shift: nat, window: string)
    requires shift + |window| <= |file| && file[shift..shift + |window|] == window
    ensures Highest(window) <= Highest(file)
  {
    if Highest(window) > 0 {
      var i := MaxScoreAttained(window, |window|);
      ScoreInWindow(window, file, shift, i);
      MaxScoreBounds(file, |file|, i + shift);
    }
  }

  /** `found` is no more than the file's highest version, and equal to it exactly when a match with it
      lies within the offsets. */
  ghost predicate Attains(file: string, lo: nat, hi: nat, found: nat) {
    && found <= Highest(file)
    && (Highest(file) > 0 ==> (found == Highest(file) <==> HighestWithin(file, lo, hi)))
  }

  /** A slice has the file's highest version exactly when it holds a match with it. */
  lemma SliceAttains(file: string, lo: nat, hi: nat, window: string)
    requires lo <= hi <= |file| && file[lo..hi] == window
    ensures Attains(file, lo, hi, Highest(window))
  {
    assert hi == lo + |window|;
    WindowNeverExceeds(file, lo, window);
    if Highest(window) == Highest(file) > 0 {
      var q := MaxScoreAttained(window, |window|);
      ScoreInWindow(window, file, lo, q);
      MaxScoreBounds(file, |file|, q + lo);
      assert IsHighest(file, q + lo);
    }
    forall p | lo <= p && IsHighest(file, p) && MatchEnd(file, p) <= hi && Highest(file) > 0
      ensures Highest(window) == Highest(file)
    {
      MatchReachesWindow(file, lo, window, p);
      MaxScoreBounds(window, |window|, p - lo);
    }
  }

  lemma WindowIsSlice(chunks: seq<string>, i: nat, tail: string, window: string)
    requires i < |chunks| && Overlap(Flatten(chunks[..i]), tail, TAIL) && |tail| <= TAIL
    requires window == tail + chunks[i]
    ensures var lo, hi := WindowStart(chunks, i), Boundary(chunks, i + 1);
            lo <= hi <= |Flatten(chunks)| && Flatten(chunks)[lo..hi] == window
  {
    var file, before := Flatten(chunks), Flatten(chunks[..i]);
    assert WindowStart(chunks, i) == |before| - |tail|;
    assert Boundary(chunks, i + 1) == |before + chunks[i]| && before + chunks[i] <= file by {
      OneMoreChunk(chunks, i);
      FlattenPrefix(chunks, i + 1);
    }
    WindowOfFile(file, before, tail, chunks[i]);
  }

  lemma WindowAttains(chunks: seq<string>, i: nat, tail: string, window: string)
    requires i < |chunks| && Overlap(Flatten(chunks[..i]), tail, TAIL) && |tail| <= TAIL
    requires window == tail + chunks[i]
    ensures Attains(Flatten(chunks), WindowStart(chunks, i), Boundary(chunks, i + 1), Highest(window))
  {
    WindowIsSlice(chunks, i, tail, window);
    SliceAttains(Flatten(chunks), WindowStart(chunks, i), Boundary(chunks, i + 1), window);
  }

  /** `best` is what the first `n` windows show. */
  ghost predicate Progress(chunks: seq<string>, n: nat, best: nat)
    requires n <= |chunks|
  {
    var highest := Highest(Flatten(chunks));
    best <= highest && (best == highest <==> highest == 0 || SeenHighest(chunks, n))
  }

  lemma ScanStep(chunks: seq<string>, i: nat, found: nat, best: nat)
    requires i < |chunks| && Progress(chunks, i, best)
    requires Attains(Flatten(chunks), WindowStart(chunks, i), Boundary(chunks, i + 1), found)
    ensures Progress(chunks, i + 1, Max(best, found))
  {
    SeenOneMore(chunks, i);
  }

  lemma SeenOneMore(chunks: seq<string>, i: nat)
    requires i < |chunks|
    ensures SeenHighest(chunks, i + 1) <==> SeenHighest(chunks, i) || HoldsHighest(chunks, i)
  {
    if SeenHighest(chunks, i) {
      var j :| 0 <= j < i && HoldsHighest(chunks, j);
      assert j < i + 1;
    }
  }

  /** A match is whole in some window exactly when it is not cut. */
  lemma HeldIffNotCut(chunks: seq<string>, p: nat, e: nat)
    requires MatchAt(Flatten(chunks), p) && e == MatchEnd(Flatten(chunks), p)
    ensures (exists i | 0 <= i < |chunks| :: WindowStart(chunks, i) <= p && e <= Boundary(chunks, i + 1))
       <==> !Cut(chunks, p)
  {
    assert chunks[..|chunks|] == chunks;
    var i := ChunkOf(chunks, |chunks|, e);
    if !Cut(chunks, p) {
      assert WindowStart(chunks, i) <= p;
    }
    forall j, k | 0 <= j < |chunks| && WindowStart(chunks, j) <= p && e <= Boundary(chunks, j + 1) && 0 < k < |chunks|
      ensures !(p + TAIL < Boundary(chunks, k) < e)
    {
      if k <= j {
        BoundariesGrow(chunks, k, j);
      } else {
        BoundariesGrow(chunks, j + 1, k);
      }
    }
  }

  /** The windows see the highest version exactly when not every match with it is cut. */
  lemma SeenIffUncut(chunks: seq<string>)
    ensures SeenHighest(chunks, |chunks|) <==> HighestUncut(chunks)
  {
    var file := Flatten(chunks);
    if HighestUncut(chunks) {
      var p: nat :| IsHighest(file, p) && !Cut(chunks, p);
      HeldIffNotCut(chunks, p, MatchEnd(file, p));
      var i :| 0 <= i < |chunks| && WindowStart(chunks, i) <= p && MatchEnd(file, p) <= Boundary(chunks, i + 1);
      assert HoldsHighest(chunks, i);
    }
    if SeenHighest(chunks, |chunks|) {
      var i :| 0 <= i < |chunks| && HoldsHighest(chunks, i);
      var p: nat :| WindowStart(chunks, i) <= p && IsHighest(file, p) && MatchEnd(file, p) <= Boundary(chunks, i + 1);
      HeldIffNotCut(chunks, p, MatchEnd(file, p));
    }
  }

  lemma ShortMatchesUncut(chunks: seq<string>)
    requires ShortMatches(Flatten(chunks)) && Highest(Flatten(chunks)) > 0
    ensures HighestUncut(chunks)
  {
    var file := Flatten(chunks);
    var p := MaxScoreAttained(file, |file|);
    assert IsHighest(file, p) && !Cut(chunks, p);
  }

  lemma ProgressAtEnd(chunks: seq<string>, best: nat)
    requires Progress(chunks, |chunks|, best)
    ensures best == Highest(Flatten(chunks)) <==> Highest(Flatten(chunks)) == 0 || HighestUncut(chunks)
    ensures ShortMatches(Flatten(chunks)) ==> best == Highest(Flatten(chunks))
  {
    SeenIffUncut(chunks);
    if ShortMatches(Flatten(chunks)) && Highest(Flatten(chunks)) > 0 {
      ShortMatchesUncut(chunks);
    }
  }

  lemma TailOverlaps(chunks: seq<string>, i: nat)
    requires i < |chunks| && Chunked(chunks, TAIL)
    ensures i < |chunks| - 1 ==> Overlap(Flatten(chunks[..i + 1]), Last(chunks[i], TAIL), TAIL)
  {
    OneMoreChunk(chunks, i);
    if i < |chunks| - 1 {
      NextOverlap(Flatten(chunks[..i]), chunks[i], TAIL);
    }
  }

  /** `_max_glibc_minor`: never more than the highest version in the file, and exactly that unless every
      match with that version is cut; no match of at most seventeen bytes is. */
  method MaxGlibcMinor(chunks: seq<string>) returns (best: nat)
    requires Chunked(chunks, TAIL)
    ensures best <= Highest(Flatten(chunks))
    ensures best == Highest(Flatten(chunks)) <==> Highest(Flatten(chunks)) == 0 || HighestUncut(chunks)
    ensures ShortMatches(Flatten(chunks)) ==> best == Highest(Flatten(chunks))
  {
    best := 0;
    var tail := "";
    for i := 0 to |chunks|
      invariant |tail| <= TAIL && (i < |chunks| ==> Overlap(Flatten(chunks[..i]), tail, TAIL))
      invariant Progress(chunks, i, best)
    {
      var chunk := chunks[i];
      var window := tail + chunk;
      WindowAttains(chunks, i, tail, window);
      ScanStep(chunks, i, Highest(window), best);
      best := ScanWindow(window, best);
      TailOverlaps(chunks, i);
      tail := Last(chunk, TAIL);
    }
    ProgressAtEnd(chunks, best);
  }

  const CHUNK: nat := 0x10_0000
  const FRONT: string := "GLIBC_2.000000001"

  /** Eighteen bytes are enough: the only version of this file starts seventeen bytes before the end of
      its first mebibyte and goes on behind it, so the scan misses it. */
  lemma LongVersionIsMissed(filler: string, chunks: seq<string>)
    requires |filler| == CHUNK - 17 && 'G' !in filler && chunks == [filler + FRONT, "1"]
    ensures |chunks[0]| == CHUNK && Chunked(chunks, TAIL)
    ensures Highest(Flatten(chunks)) > 0 && !HighestUncut(chunks)
  {
    var file, at := filler + FRONT + "1", |filler|;
    TwoChunks(chunks);
    assert Flatten(chunks) == file;
    LongVersion(filler, file);
    MaxScoreBounds(file, |file|, at);
    forall p: nat | IsHighest(file, p)
      ensures p == at
    {
      OnlyVersion(filler, file, p);
    }
  }

  lemma TwoChunks(chunks: seq<string>)
    requires |chunks| == 2
    ensures Flatten(chunks) == chunks[0] + chunks[1] && Boundary(chunks, 1) == |chunks[0]|
  {
    OneMoreChunk(chunks, 0);
    OneMoreChunk(chunks, 1);
    assert chunks[..2] == chunks && Flatten(chunks[..0]) == "";
  }

  lemma LongVersion(filler: string, file: string)
    requires file == filler + FRONT + "1"
    ensures var at := |filler|; MatchAt(file, at) && MatchEnd(file, at) == at + 18 && Score(file, at) > 0
  {
    var at, s := |filler|, FRONT + "1";
    assert file == filler + s && s[0..8] == TAG;
    assert file[at..at + 8] == s[0..8];
    forall j | at + 8 <= j < at + 18
      ensures IsDigit(file[j])
    {
      assert file[j] == s[j - at];
    }
    assert file[at + 17] == '1';
  }

  lemma OnlyVersion(filler: string, file: string, p: nat)
    requires 'G' !in filler && file == filler + FRONT + "1" && MatchAt(file, p)
    requires MatchAt(file, |filler|) && MatchEnd(file, |filler|) == |filler| + 18
    ensures p == |filler|
  {
    TagAt(file, p, 0);
    if p > |filler| {
      MatchesAreDisjoint(file, |filler|, p);
      assert false;
    }
  }

  // ---------------------------------------------------------------------------------------------
  // Reading a version

  function DigitChar(d: nat): char
    requires d < 10
  {
    ('0' as int + d) as char
  }

  function Decimal(n: nat): (s: string)
    ensures |s| > 0 && forall j | 0 <= j < |s| :: IsDigit(s[j])
  {
    if n < 10 then [DigitChar(n)] else Decimal(n / 10) + [DigitChar(n % 10)]
  }

  /** The digits of a number read back as it. */
  lemma {:induction false} DecimalReads(n: nat)
    ensures Number(Decimal(n), 0, |Decimal(n)|) == n
  {
    var s := Decimal(n);
    if n >= 10 {
      var t := Decimal(n / 10);
      DecimalReads(n / 10);
      assert s[..|t|] == t;
      NumberShifts(t, s, 0, 0, |t|);
    }
  }

  /** A file that names one version has that version as its highest. */
  lemma OneVersionReads(n: nat, file: string)
    requires file == TAG + Decimal(n)
    ensures Highest(file) == n
  {
    var d := Decimal(n);
    assert file[0..8] == TAG && MatchAt(file, 0);
    assert forall j | 8 <= j < |file| :: file[j] == d[j - 8];
    assert MatchEnd(file, 0) == |file|;
    DecimalReads(n);
    NumberShifts(d, file, 8, 0, |d|);
    MaxScoreBounds(file, |file|, 0);
    if Highest(file) > n {
      var i := MaxScoreAttained(file, |file|);
      if i > 0 {
        MatchesAreDisjoint(file, 0, i);
      }
      assert false;
    }
  }
}
