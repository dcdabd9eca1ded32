/** Sequences of sequences, end to end: frames of a stream, chunks of an upload, the event
    batches of a tick. */
module Sequences {

  /** The last element, or `otherwise` when there is none. */
  function LastOr<T>(s: seq<T>, otherwise: T): T {
    if s == [] then otherwise else s[|s| - 1]
  }

  function Joined<T>(parts: seq<seq<T>>): seq<T> {
    if parts == [] then [] else Joined(parts[..|parts| - 1]) + parts[|parts| - 1]
  }

  lemma {:induction false} JoinedFront<T>(parts: seq<seq<T>>)
    requires parts != []
    ensures Joined(parts) == parts[0] + Joined(parts[1..])
    decreases |parts|
  {
    var k := |parts| - 1;
    if k == 0 {
      assert parts[..0] == [];
    } else {
      var middle := parts[1..k];
      JoinedFront(parts[..k]);
      assert parts[..k][1..] == middle && parts[1..][..k - 1] == middle;
      assert parts[0] + Joined(middle) + parts[k] == parts[0] + (Joined(middle) + parts[k]);
    }
  }
}
