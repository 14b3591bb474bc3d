/** Shared vocabulary: optional values, bytes, machine-word limits and flattened sequences. */
module Prelude {

  datatype Option<+A> = None | Some(value: A)

  type Byte = b: int | 0 <= b < 256

  const USIZE_MAX: nat := 0xFFFF_FFFF_FFFF_FFFF
  const U32_LIMIT: nat := 0x1_0000_0000

  function Flatten<T>(parts: seq<seq<T>>): seq<T> {
    if parts == [] then [] else Flatten(parts[..|parts| - 1]) + parts[|parts| - 1]
  }

  lemma {:induction false} FlattenAppend<T>(a: seq<seq<T>>, b: seq<seq<T>>)
    ensures Flatten(a + b) == Flatten(a) + Flatten(b)
  {
    if b == [] {
      assert a + b == a;
    } else {
      FlattenAppend(a, b[..|b| - 1]);
      assert (a + b)[..|a + b| - 1] == a + b[..|b| - 1];
    }
  }
}
