/**
  The playback ring seen as a stream: everything ever appended, and how far it has been read or
  discarded. `AudioBuffer` and its reader are runs of these operations.
*/
module PlaybackRing {
  import opened Prelude

  const USIZE: nat := USIZE_MAX + 1

  /** `head` is how many of the appended samples have left the ring; `discards` counts the times
      unread ones were among them. */
  datatype Stream<T> = Stream(appended: seq<T>, head: nat, discards: nat) {

    predicate Valid(capacity: nat) {
      head <= |appended| && |appended| - head <= capacity
    }

    /** The ring holds the appended samples from `head` on, whatever happened before. */
    function Contents(): seq<T>
      requires head <= |appended|
    {
      appended[head..]
    }

    /** The counter the reader looks at: it wraps like the machine word it is. */
    function Generation(): nat {
      discards % USIZE
    }
  }

  datatype Op<T> = Append(samples: seq<T>) | Skip(count: nat) | Read(count: nat)

  predicate Allowed<T>(s: Stream<T>, op: Op<T>)
    requires s.head <= |s.appended|
  {
    match op
    case Append(_) => true
    case Skip(count) => 0 < count <= |s.Contents()|
    case Read(count) => count <= |s.Contents()|
  }

  function Overflow(length: nat, more: nat, capacity: nat): nat {
    if length + more > capacity then length + more - capacity else 0
  }

  function Apply<T>(s: Stream<T>, capacity: nat, op: Op<T>): Stream<T>
    requires s.head <= |s.appended|
  {
    match op
    case Append(samples) =>
      var lost := Overflow(|s.Contents()|, |samples|, capacity);
      Stream(s.appended + samples, s.head + lost, s.discards + if lost > 0 then 1 else 0)
    case Skip(count) => s.(head := s.head + count, discards := s.discards + 1)
    case Read(count) => s.(head := s.head + count)
  }

  /** Overwriting keeps the newest samples: the ring never exceeds its capacity, loses samples only
      off its front, and the counter moves exactly when it does. */
  lemma ApplyKeepsValid<T>(s: Stream<T>, capacity: nat, op: Op<T>)
    requires s.Valid(capacity) && Allowed(s, op)
    ensures Apply(s, capacity, op).Valid(capacity)
    ensures op.Append? ==> var grown := s.Contents() + op.samples;
              Apply(s, capacity, op).Contents() == grown[Overflow(|s.Contents()|, |op.samples|, capacity)..]
    ensures !op.Append? ==> Apply(s, capacity, op).Contents() == s.Contents()[op.count..]
    ensures Apply(s, capacity, op).discards > s.discards <==> !op.Read? && Apply(s, capacity, op).head > s.head
  {
    if op.Append? {
      var lost := Overflow(|s.Contents()|, |op.samples|, capacity);
      var grown := s.Contents() + op.samples;
      assert (s.appended + op.samples)[s.head + lost..] == grown[lost..];
    }
  }

  ghost predicate IsRun<T(!new)>(capacity: nat, states: seq<Stream<T>>, ops: seq<Op<T>>) {
    && |states| == |ops| + 1
    && states[0].Valid(capacity)
    && forall i | 0 <= i < |ops| :: Follows(capacity, states[i], ops[i], states[i + 1])
  }

  predicate Follows<T(==)>(capacity: nat, s: Stream<T>, op: Op<T>, s': Stream<T>) {
    s.head <= |s.appended| && Allowed(s, op) && s' == Apply(s, capacity, op)
  }

  lemma {:induction false} RunKeepsValid<T(!new)>(capacity: nat, states: seq<Stream<T>>, ops: seq<Op<T>>, n: nat)
    requires IsRun(capacity, states, ops) && n < |states|
    ensures states[n].Valid(capacity)
  {
    if n > 0 {
      RunKeepsValid(capacity, states, ops, n - 1);
      assert Follows(capacity, states[n - 1], ops[n - 1], states[n]);
      ApplyKeepsValid(states[n - 1], capacity, ops[n - 1]);
    }
  }

  /** Everything read between two points of a run, in order. */
  ghost function ReadOut<T(!new)>(capacity: nat, states: seq<Stream<T>>, ops: seq<Op<T>>, i: nat, j: nat): seq<T>
    requires IsRun(capacity, states, ops) && i <= j < |states|
    decreases j - i
  {
    if i == j then []
    else
      assert Follows(capacity, states[j - 1], ops[j - 1], states[j]);
      ReadOut(capacity, states, ops, i, j - 1)
      + if ops[j - 1].Read? then states[j - 1].Contents()[..ops[j - 1].count] else []
  }

  /** Between two points samples go by being read or by being discarded, every discard takes at least
      one, and without any the reads are one slice of what was appended. */
  lemma {:induction false} ReadsAndDiscards<T(!new)>(capacity: nat, states: seq<Stream<T>>, ops: seq<Op<T>>, i: nat, j: nat)
    requires IsRun(capacity, states, ops) && i <= j < |states|
    ensures states[i].discards <= states[j].discards && states[i].appended <= states[j].appended
    ensures states[i].head + |ReadOut(capacity, states, ops, i, j)| + states[j].discards - states[i].discards <= states[j].head
    ensures states[j].head <= |states[j].appended|
    ensures states[j].discards == states[i].discards ==>
              ReadOut(capacity, states, ops, i, j) == states[j].appended[states[i].head..states[j].head]
    decreases j - i
  {
    RunKeepsValid(capacity, states, ops, j);
    if i < j {
      ReadsAndDiscards(capacity, states, ops, i, j - 1);
      assert Follows(capacity, states[j - 1], ops[j - 1], states[j]);
      if states[j].discards == states[i].discards {
        OneMoreOp(states[j - 1], capacity, ops[j - 1], states[j], states[i].head);
      }
    }
  }

  lemma OneMoreOp<T>(s: Stream<T>, capacity: nat, op: Op<T>, s': Stream<T>, from: nat)
    requires from <= s.head <= |s.appended| && Allowed(s, op) && s' == Apply(s, capacity, op) && s'.discards == s.discards
    ensures s'.head <= |s'.appended|
    ensures s'.appended[from..s'.head] == s.appended[from..s.head] + if op.Read? then s.Contents()[..op.count] else []
  {
    if op.Read? {
      assert s.appended[s.head..][..op.count] == s.appended[s.head..s.head + op.count];
    }
  }

  /** Whatever was read between two points is one slice of what was appended exactly when both show the
      same generation, unless the counter went all the way round in between. */
  lemma SameGenerationIsSeamless<T(!new)>(capacity: nat, states: seq<Stream<T>>, ops: seq<Op<T>>, i: nat, j: nat)
    requires IsRun(capacity, states, ops) && i <= j < |states|
    requires states[j].discards - states[i].discards < USIZE
    ensures var read := ReadOut(capacity, states, ops, i, j);
            && (states[j].Generation() == states[i].Generation() <==> states[j].head == states[i].head + |read|)
            && (states[j].Generation() == states[i].Generation() ==>
                  && states[i].head <= states[j].head <= |states[j].appended|
                  && read == states[j].appended[states[i].head..states[j].head])
  {
    ReadsAndDiscards(capacity, states, ops, i, j);
    SameRemainder(states[i].discards, states[j].discards);
  }

  lemma SameRemainder(a: nat, b: nat)
    requires a <= b < a + USIZE
    ensures a % USIZE == b % USIZE <==> a == b
  {
    var d := b - a;
    if 0 < d {
      assert b % USIZE == (a % USIZE + d) % USIZE;
    }
  }
}
