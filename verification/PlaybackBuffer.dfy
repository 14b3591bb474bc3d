/**
  `AudioBuffer`: the playback ring with a histogram of its fill levels, evaluated every twelve
  seconds to drop what is never needed.
*/
module PlaybackBuffer {
  import opened Arithmetic
  import opened PlaybackRing

  const BINS: nat := 30
  const WINDOW_MS: int := 12000

  // ---------------------------------------------------------------------------------------------
  // What a histogram says

  /** The bin of a fill level, in tenths of a second. */
  function Bin(level: nat, perSecond: nat): (b: nat)
    requires perSecond > 0
    ensures b < BINS
  {
    var i := level * 10 / perSecond;
    if i > 29 then 29 else i
  }

  /** A level is in bin `b` exactly when it is at least `b` tenths of a second and less than one more;
      the last bin holds all higher ones. */
  lemma BinIsTenths(level: nat, perSecond: nat, b: nat)
    requires perSecond > 0 && b < BINS
    ensures Bin(level, perSecond) == b <==>
            b * perSecond <= 10 * level && (b < BINS - 1 ==> 10 * level < (b + 1) * perSecond)
  {
    LeDiv(b, perSecond, level * 10);
    LeDiv(b + 1, perSecond, level * 10);
  }

  function Count(levels: seq<nat>, perSecond: nat, b: nat): nat
    requires perSecond > 0
  {
    if levels == [] then 0
    else Count(levels[..|levels| - 1], perSecond, b) + if Bin(levels[|levels| - 1], perSecond) == b then 1 else 0
  }

  /** The thirty bins of a window's levels. */
  ghost function Histogram(levels: seq<nat>, perSecond: nat): (h: seq<nat>)
    requires perSecond > 0
    ensures |h| == BINS
  {
    seq(BINS, b requires 0 <= b < BINS => Count(levels, perSecond, b))
  }

  /** How many bins from the lowest up, among the first `n`, are empty. */
  function LeadingZeros(h: seq<nat>, n: nat): (z: nat)
    requires n <= |h|
    ensures z <= n
  {
    if n == 0 then 0
    else
      var z := LeadingZeros(h, n - 1);
      if h[n - 1] == 0 && z == n - 1 then z + 1 else z
  }

  /** The fullest bin above the lowest, the first of several; 0 when they are all empty. */
  function Peak(h: seq<nat>, n: nat): (m: nat)
    requires n <= |h|
    ensures m == 0 || m < n
  {
    if n <= 1 then 0
    else
      var m := Peak(h, n - 1);
      if h[n - 1] > (if m == 0 then 0 else h[m]) then n - 1 else m
  }

  lemma {:induction false} LeadingZerosAreLowest(h: seq<nat>, n: nat)
    requires n <= |h|
    ensures forall j | 0 <= j < LeadingZeros(h, n) :: h[j] == 0
    ensures LeadingZeros(h, n) < n ==> h[LeadingZeros(h, n)] != 0
  {
    if n > 0 {
      LeadingZerosAreLowest(h, n - 1);
    }
  }

  lemma {:induction false} PeakIsFullest(h: seq<nat>, n: nat)
    requires n <= |h|
    ensures var m := Peak(h, n);
            && (m > 0 ==> h[m] > 0)
            && (forall j | 1 <= j < n :: h[j] <= if m == 0 then 0 else h[m])
            && (forall j | 1 <= j < m :: h[j] < h[m])
  {
    if n > 1 {
      PeakIsFullest(h, n - 1);
    }
  }

  function EvenUp(x: nat): (r: nat)
    ensures r % 2 == 0 && x <= r <= x + 1
  {
    (x + 1) / 2 * 2
  }

  /** The number of samples a window's histogram asks to drop. */
  function SkipFor(h: seq<nat>, capacity: nat): nat
    requires |h| == BINS
  {
    var zero, peak := LeadingZeros(h, BINS) * 2 / 3, Peak(h, BINS);
    if peak < 6 then 0
    else EvenUp(capacity * (if peak > zero * 4 then zero * 4 else peak) / 120)
  }

  /** What is dropped is even and at most two thirds of every level of the window, plus a sample. */
  lemma SkipBound(h: seq<nat>, perSecond: nat, level: nat)
    requires |h| == BINS && perSecond > 0 && h[Bin(level, perSecond)] > 0
    ensures SkipFor(h, 3 * perSecond) % 2 == 0
    ensures 3 * SkipFor(h, 3 * perSecond) <= 2 * level + 3
  {
    var low := LeadingZeros(h, BINS);
    var zero, peak := low * 2 / 3, Peak(h, BINS);
    LeadingZerosAreLowest(h, BINS);
    assert low <= Bin(level, perSecond);
    if peak >= 6 {
      var m := if peak > zero * 4 then zero * 4 else peak;
      SkipArithmetic(low, m, perSecond, level);
    }
  }

  lemma SkipArithmetic(low: nat, m: nat, perSecond: nat, level: nat)
    requires perSecond > 0 && low <= level * 10 / perSecond && m <= low * 2 / 3 * 4
    ensures 3 * (3 * perSecond * m / 120) <= 2 * level
  {
    var q, pm, pl := level * 10 / perSecond, m * perSecond, low * perSecond;
    assert 3 * perSecond * m == 3 * pm;
    DivBounds(level * 10, perSecond);
    MulMonotone(low, q, perSecond);
    MulMonotone(3 * m, 8 * low, perSecond);
    assert (3 * m) * perSecond == 3 * pm && (8 * low) * perSecond == 8 * pl;
  }

  /** The lowest filled bin, and the first fullest one above bin zero. */
  predicate IsLowest(h: seq<nat>, low: nat) {
    low < |h| && h[low] > 0 && forall j | 0 <= j < low :: h[j] == 0
  }

  predicate IsFullest(h: seq<nat>, peak: nat) {
    && 1 <= peak < |h| && h[peak] > 0
    && (forall j | 1 <= j < |h| :: h[j] <= h[peak])
    && (forall j | 1 <= j < peak :: h[j] < h[peak])
  }

  /** Exactly what a window drops: nothing while it mostly held less than 600 ms, and else a fortieth of a
      second for each tenth it mostly held, or for each of four times two thirds of the tenths it always
      held if that is less, made even. */
  lemma SkipOf(h: seq<nat>, perSecond: nat, low: nat, peak: nat)
    requires |h| == BINS && perSecond > 0 && IsLowest(h, low) && IsFullest(h, peak)
    ensures SkipFor(h, 3 * perSecond) ==
            if peak < 6 then 0
            else EvenUp(perSecond * (if peak <= low * 2 / 3 * 4 then peak else low * 2 / 3 * 4) / 40)
  {
    LeadingZerosAreLowest(h, BINS);
    PeakIsFullest(h, BINS);
    assert LeadingZeros(h, BINS) == low && Peak(h, BINS) == peak;
    var m := if peak <= low * 2 / 3 * 4 then peak else low * 2 / 3 * 4;
    Fortieth(perSecond, m);
  }

  lemma Fortieth(perSecond: nat, m: nat)
    ensures 3 * perSecond * m / 120 == perSecond * m / 40
  {
    var x := perSecond * m;
    assert 3 * perSecond * m == 3 * x;
  }

  lemma {:induction false} SteadyCount(levels: seq<nat>, perSecond: nat, b: nat, j: nat)
    requires perSecond > 0 && forall i | 0 <= i < |levels| :: Bin(levels[i], perSecond) == b
    ensures Count(levels, perSecond, j) == if j == b then |levels| else 0
  {
    if levels != [] {
      SteadyCount(levels[..|levels| - 1], perSecond, b, j);
    }
  }

  /** A window that always held the same `b` tenths of a second, six at least, drops a quarter of them. */
  lemma SteadyWindowSkips(levels: seq<nat>, perSecond: nat, b: nat)
    requires perSecond > 0 && |levels| > 0 && 6 <= b < BINS
    requires forall i | 0 <= i < |levels| :: Bin(levels[i], perSecond) == b
    ensures SkipFor(Histogram(levels, perSecond), 3 * perSecond) == EvenUp(perSecond * b / 40)
  {
    var h := Histogram(levels, perSecond);
    forall j | 0 <= j < BINS
      ensures h[j] == if j == b then |levels| else 0
    {
      SteadyCount(levels, perSecond, b, j);
    }
    SkipOf(h, perSecond, b, b);
  }

  lemma {:induction false} RecordedBinIsFilled(levels: seq<nat>, perSecond: nat, i: nat)
    requires perSecond > 0 && i < |levels|
    ensures Count(levels, perSecond, Bin(levels[i], perSecond)) > 0
  {
    if i < |levels| - 1 {
      RecordedBinIsFilled(levels[..|levels| - 1], perSecond, i);
    }
  }

  /** A window drops at most two thirds of the lowest level it recorded, plus one sample. */
  lemma WindowBound(levels: seq<nat>, perSecond: nat, i: nat)
    requires perSecond > 0 && i < |levels|
    ensures SkipFor(Histogram(levels, perSecond), 3 * perSecond) % 2 == 0
    ensures 3 * SkipFor(Histogram(levels, perSecond), 3 * perSecond) <= 2 * levels[i] + 3
  {
    RecordedBinIsFilled(levels, perSecond, i);
    SkipBound(Histogram(levels, perSecond), perSecond, levels[i]);
  }

  // ---------------------------------------------------------------------------------------------
  // The buffer

  /** What a reader asks for. */
  datatype Request = Request(requested: nat, channels: nat)

  class AudioBuffer<T> {
    const perSecond: nat  // samples of all channels per second
    const capacity: nat
    var ring: seq<T>
    var bins: array<nat>
    var generation: nat
    var lastEvaluated: int        // milliseconds; 0 before the first sample
    ghost var stream: Stream<T>   // what the ring is a window on
    ghost var levels: seq<nat>    // the levels recorded since the last evaluation

    ghost predicate Valid()
      reads this, bins
    {
      && perSecond > 0 && capacity == 3 * perSecond
      && stream.Valid(capacity) && ring == stream.Contents()
      && generation == stream.Generation()
      && bins.Length == BINS
      && forall b | 0 <= b < BINS :: bins[b] == Count(levels, perSecond, b)
    }

    /** Three seconds of `perSecond` samples. */
    constructor (perSecond: nat)
      requires perSecond > 0
      ensures Valid() && fresh(bins) && this.perSecond == perSecond
      ensures stream == Stream([], 0, 0) && levels == [] && lastEvaluated == 0
    {
      this.perSecond, capacity := perSecond, 3 * perSecond;
      ring, generation, lastEvaluated := [], 0, 0;
      bins := new nat[BINS](_ => 0);
      stream, levels := Stream([], 0, 0), [];
    }

    /** `append_pcm2`: push overwriting, and signal when unread samples went. */
    method Append(buffer: seq<T>) returns (occupied: nat)
      requires Valid()
      modifies `ring, `generation, `stream
      ensures Valid() && stream == Apply(old(stream), capacity, PlaybackRing.Append(buffer))
      ensures occupied == |ring|
    {
      ApplyKeepsValid(stream, capacity, PlaybackRing.Append(buffer));
      var having := |ring| + |buffer|;
      var grown := ring + buffer;
      if having > capacity {
        ring := grown[having - capacity..];
        SignalWraps(stream.discards);
        generation := (generation + 1) % USIZE;
      } else {
        ring := grown;
      }
      stream := Apply(stream, capacity, PlaybackRing.Append(buffer));
      occupied := |ring|;
    }

    static lemma SignalWraps(discards: nat)
      ensures (discards % USIZE + 1) % USIZE == (discards + 1) % USIZE
    {}

    /** The reader: whole frames, oldest first. */
    method Read(requested: nat, channels: nat) returns (samples: seq<T>, seen: nat)
      requires Valid() && channels > 0
      modifies `ring, `stream
      ensures Valid() && seen == generation
      ensures |samples| % channels == 0 && samples <= old(stream.Contents())
      ensures |samples| <= requested && (requested - |samples| < channels || old(|ring|) - |samples| < channels)
      ensures stream == Apply(old(stream), capacity, PlaybackRing.Read(|samples|))
    {
      seen := generation;
      var available := if |ring| < requested then |ring| else requested;
      var count := available / channels * channels;
      WholeFrames(available, channels);
      ApplyKeepsValid(stream, capacity, PlaybackRing.Read(count));
      samples := ring[..count];
      ring := ring[count..];
      stream := Apply(stream, capacity, PlaybackRing.Read(count));
    }

    static lemma WholeFrames(n: nat, channels: nat)
      requires channels > 0
      ensures 0 <= n / channels * channels <= n < n / channels * channels + channels
      ensures n / channels * channels % channels == 0
    {
      DivBounds(n, channels);
      DivIs(n / channels * channels, channels, n / channels);
    }

    /** Records a level and, when twelve seconds have passed, takes stock of the window. */
    method Record(having: nat, now: int) returns (due: bool)
      requires Valid()
      modifies bins, `lastEvaluated, `levels
      ensures Valid() && levels == old(levels) + [having]
      ensures due <==> old(lastEvaluated) != 0 && now >= old(lastEvaluated) + WINDOW_MS
      ensures lastEvaluated == if due || old(lastEvaluated) == 0 then now else old(lastEvaluated)
    {
      var i := having * 10 / perSecond;
      if i > 29 {
        i := 29;
      }
      bins[i] := bins[i] + 1;
      assert (levels + [having])[..|levels|] == levels;
      levels := levels + [having];
      if lastEvaluated == 0 {
        lastEvaluated := now;
        return false;
      } else if now < lastEvaluated + WINDOW_MS {
        return false;
      }
      lastEvaluated := now;
      due := true;
    }

    /** The scan over the histogram: finds the two water marks and leaves every bin empty. */
    method ScanBins() returns (zero: nat, max: nat)
      requires bins.Length == BINS
      modifies bins
      ensures zero == LeadingZeros(old(bins[..]), BINS) && max == Peak(old(bins[..]), BINS)
      ensures forall b | 0 <= b < BINS :: bins[b] == 0
    {
      ghost var h := bins[..];
      zero, max := 0, 0;
      for i := 0 to BINS
        invariant bins.Length == BINS
        invariant zero == LeadingZeros(h, i) && max == Peak(h, i)
        invariant forall b | i <= b < BINS :: bins[b] == h[b]
        invariant forall b | 0 <= b < i && b != max :: bins[b] == 0
        invariant i > 0 ==> bins[max] == if max == 0 then 0 else h[max]
      {
        if bins[i] == 0 && zero == i {
          zero := zero + 1;
        }
        if bins[i] > bins[max] {
          bins[max] := 0;
          max := i;
        } else {
          bins[i] := 0;
        }
      }
      bins[max] := 0;
    }

    /** `try_shrink`: at the end of a window, drops what the whole window had to spare. */
    method TryShrink(having: nat, now: int) returns (due: bool, dropped: nat)
      requires Valid()
      modifies this, bins
      ensures Valid() && bins == old(bins)
      ensures due <==> old(lastEvaluated) != 0 && now >= old(lastEvaluated) + WINDOW_MS
      ensures lastEvaluated == if due || old(lastEvaluated) == 0 then now else old(lastEvaluated)
      ensures levels == if due then [] else old(levels) + [having]
      ensures due ==> forall b | 0 <= b < BINS :: bins[b] == 0
      ensures var skip := SkipFor(Histogram(old(levels) + [having], perSecond), capacity);
              dropped == if due && skip > 0 && old(|ring|) > skip * 3 then skip else 0
      ensures stream == if dropped > 0 then Apply(old(stream), capacity, Skip(dropped)) else old(stream)
      // Never more than a third of what is there, nor two thirds of what was there all along.
      ensures dropped % 2 == 0 && (dropped > 0 ==> 3 * dropped < old(|ring|))
      ensures forall i | 0 <= i < |old(levels)| :: 3 * dropped <= 2 * old(levels)[i] + 3
      ensures 3 * dropped <= 2 * having + 3
    {
      dropped := 0;
      ghost var window := levels + [having];
      due := Record(having, now);
      if !due {
        return;
      }
      assert bins[..] == Histogram(window, perSecond);
      var zero, max := ScanBins();
      levels := [];
      BoundAll(window);
      zero := zero * 2 / 3;
      if max < 6 {
        return;
      } else if max > zero * 4 {
        max := zero * 4;
      }
      var skip := (capacity * max / (30 * 4) + 1) / 2 * 2;
      if |ring| > skip * 3 && skip > 0 {
        ApplyKeepsValid(stream, capacity, Skip(skip));
        ring := ring[skip..];
        SignalWraps(stream.discards);
        generation := (generation + 1) % USIZE;
        stream := Apply(stream, capacity, Skip(skip));
        dropped := skip;
      }
    }

    lemma BoundAll(window: seq<nat>)
      requires perSecond > 0 && capacity == 3 * perSecond && |window| > 0
      ensures SkipFor(Histogram(window, perSecond), capacity) % 2 == 0
      ensures forall i | 0 <= i < |window| :: 3 * SkipFor(Histogram(window, perSecond), capacity) <= 2 * window[i] + 3
    {
      WindowBound(window, perSecond, 0);
      forall i | 0 <= i < |window|
        ensures 3 * SkipFor(Histogram(window, perSecond), capacity) <= 2 * window[i] + 3
      {
        WindowBound(window, perSecond, i);
      }
    }

    /** `append_pcm`. The lock is released between the two steps, so any reads may come in between;
        `samples` is what they got. */
    method AppendPcm(buffer: seq<T>, requests: seq<Request>, now: int) returns (samples: seq<T>, dropped: nat)
      requires Valid() && forall i | 0 <= i < |requests| :: requests[i].channels > 0
      modifies this, bins
      ensures Valid() && bins == old(bins)
      ensures var appended := Apply(old(stream), capacity, PlaybackRing.Append(buffer));
              && samples <= appended.Contents()
              && var left := Apply(appended, capacity, PlaybackRing.Read(|samples|));
                 && stream == (if dropped > 0 then Apply(left, capacity, Skip(dropped)) else left)
                 && (dropped > 0 ==> 3 * dropped < |left.Contents()|)
    {
      var having := Append(buffer);
      ghost var appended := stream;
      samples := [];
      for i := 0 to |requests|
        invariant Valid() && bins == old(bins)
        invariant samples <= appended.Contents()
        invariant stream == Apply(appended, capacity, PlaybackRing.Read(|samples|))
      {
        ghost var before := stream;
        var more, _ := Read(requests[i].requested, requests[i].channels);
        ReadsJoin(appended, capacity, samples, before, more);
        samples := samples + more;
      }
      var due;
      due, dropped := TryShrink(having, now);
    }

    static lemma ReadsJoin(s: Stream<T>, capacity: nat, first: seq<T>, s': Stream<T>, second: seq<T>)
      requires s.head <= |s.appended| && first <= s.Contents()
      requires s' == Apply(s, capacity, PlaybackRing.Read(|first|)) && second <= s'.Contents()
      ensures first + second <= s.Contents()
      ensures Apply(s', capacity, PlaybackRing.Read(|second|)) == Apply(s, capacity, PlaybackRing.Read(|first + second|))
    {
      assert s'.Contents() == s.Contents()[|first|..];
    }
  }
}
