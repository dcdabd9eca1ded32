/** The bounded queue that drops the newest element when full, as a sequence, and the ring
    on free-running 32-bit counters that implements it three times in the engine: the
    capture ring (16 slots), the event queue and the outgoing queue (256 slots each). */
module BoundedFifo {
  import opened Words

  /** The capture ring: its slots, and the samples a slot has room for. */
  const RING_CAP := 16
  const MAX_SAMPLES := 2880

  function Offer<T>(q: seq<T>, x: T, capacity: nat): seq<T> {
    if |q| < capacity then q + [x] else q
  }

  /** Offering a batch keeps its longest prefix that fits. */
  function OfferAll<T>(q: seq<T>, xs: seq<T>, capacity: nat): seq<T>
    requires |q| <= capacity
  {
    q + xs[..Min(|xs|, capacity - |q|)]
  }

  lemma OfferAllStep<T>(q: seq<T>, xs: seq<T>, x: T, capacity: nat)
    requires |q| <= capacity
    ensures OfferAll(q, xs + [x], capacity) == Offer(OfferAll(q, xs, capacity), x, capacity)
    ensures |OfferAll(q, xs, capacity)| <= capacity
  {
    var n := Min(|xs|, capacity - |q|);
    assert (xs + [x])[..n] == xs[..n];
    if |xs| < capacity - |q| {
      assert (xs + [x])[..|xs| + 1] == xs[..n] + [x];
    }
  }

  lemma OfferOne<T>(q: seq<T>, x: T, capacity: nat)
    requires |q| <= capacity
    ensures OfferAll(q, [x], capacity) == Offer(q, x, capacity)
    ensures OfferAll(q, [], capacity) == q
  {
    assert [x][..1] == [x] && [x][..0] == [];
  }

  lemma OfferAllCompose<T>(q: seq<T>, xs: seq<T>, ys: seq<T>, capacity: nat)
    requires |q| <= capacity
    ensures |OfferAll(q, xs, capacity)| <= capacity
    ensures OfferAll(q, xs + ys, capacity) == OfferAll(OfferAll(q, xs, capacity), ys, capacity)
  {
    var n := Min(|xs|, capacity - |q|);
    if |xs| <= capacity - |q| {
      var m := Min(|ys|, capacity - |q| - |xs|);
      assert (xs + ys)[..|xs| + m] == xs + ys[..m];
    } else {
      assert (xs + ys)[..n] == xs[..n];
    }
  }

  // ----- runs of a queue

  datatype QueueOp<T> = Put(x: T) | Take

  function TakeOne<T>(q: seq<T>): seq<T> {
    if q == [] then [] else q[1..]
  }

  function RunQueue<T>(q: seq<T>, ops: seq<QueueOp<T>>, capacity: nat): seq<T>
    decreases |ops|
  {
    if ops == [] then q
    else RunQueue(if ops[0].Put? then Offer(q, ops[0].x, capacity) else TakeOne(q), ops[1..], capacity)
  }

  /** The elements that found room when they were put. */
  function Admitted<T>(q: seq<T>, ops: seq<QueueOp<T>>, capacity: nat): seq<T>
    decreases |ops|
  {
    if ops == [] then []
    else if ops[0].Put? then
      (if |q| < capacity then [ops[0].x] else []) + Admitted(Offer(q, ops[0].x, capacity), ops[1..], capacity)
    else Admitted(TakeOne(q), ops[1..], capacity)
  }

  function Taken<T>(q: seq<T>, ops: seq<QueueOp<T>>, capacity: nat): seq<T>
    decreases |ops|
  {
    if ops == [] then []
    else if ops[0].Put? then Taken(Offer(q, ops[0].x, capacity), ops[1..], capacity)
    else q[..Min(|q|, 1)] + Taken(TakeOne(q), ops[1..], capacity)
  }

  /** Conservation over any run: what is taken, then what is left, is what was there and what
      was admitted, in order; nothing is lost, duplicated or reordered after admission. */
  lemma {:induction false} FifoConservation<T>(q: seq<T>, ops: seq<QueueOp<T>>, capacity: nat)
    requires |q| <= capacity
    ensures Taken(q, ops, capacity) + RunQueue(q, ops, capacity) == q + Admitted(q, ops, capacity)
    ensures |RunQueue(q, ops, capacity)| <= capacity
    decreases |ops|
  {
    if ops != [] {
      if ops[0].Put? {
        var next := Offer(q, ops[0].x, capacity);
        FifoConservation(next, ops[1..], capacity);
        PuttingConserves(q, ops[0].x, capacity, Taken(next, ops[1..], capacity) + RunQueue(next, ops[1..], capacity),
                         Admitted(next, ops[1..], capacity));
      } else {
        FifoConservation(TakeOne(q), ops[1..], capacity);
        var rest := TakeOne(q);
        TakingConserves(q, Taken(rest, ops[1..], capacity), RunQueue(rest, ops[1..], capacity),
                        Admitted(rest, ops[1..], capacity));
      }
    }
  }

  lemma TakingConserves<T>(q: seq<T>, taken: seq<T>, left: seq<T>, later: seq<T>)
    requires taken + left == TakeOne(q) + later
    ensures q[..Min(|q|, 1)] + taken + left == q + later
  {
    assert q[..Min(|q|, 1)] + taken + left == q[..Min(|q|, 1)] + (taken + left);
  }

  lemma PuttingConserves<T>(q: seq<T>, x: T, capacity: nat, rest: seq<T>, later: seq<T>)
    requires rest == Offer(q, x, capacity) + later
    ensures rest == q + ((if |q| < capacity then [x] else []) + later)
  {
  }

  // ----- the ring

  predicate RingCapacity(c: nat) {
    c == 16 || c == 256
  }

  function SlotIndex(counter: int, capacity: nat): (i: nat)
    requires RingCapacity(capacity)
    ensures i < capacity
  {
    (counter % TWO32) % capacity
  }

  /** Because the capacity divides 2^32, fewer than `capacity` consecutive counter values use
      different slots even where the counter wraps. */
  lemma SlotsDistinct(counter: int, i: nat, j: nat, capacity: nat)
    requires RingCapacity(capacity) && i < j < i + capacity
    ensures SlotIndex(counter + i, capacity) != SlotIndex(counter + j, capacity)
  {
    SlotSurvivesWrap(counter + i);
    SlotSurvivesWrap(counter + j);
    var a, b := counter + i, counter + j;
    if a % capacity == b % capacity {
      SameResidueNear(a, b, capacity);
    }
  }

  lemma SameResidueNear(a: int, b: int, capacity: nat)
    requires RingCapacity(capacity) && a % capacity == b % capacity
    ensures -(capacity as int) < a - b < capacity ==> a == b
  {
    if capacity == 16 {
      assert a - b == 16 * (a / 16 - b / 16);
    } else {
      assert a - b == 256 * (a / 256 - b / 256);
    }
  }

  lemma WrappedCounter(counter: int, k: int)
    ensures (counter % TWO32 + k) % TWO32 == (counter + k) % TWO32
  {
  }

  /** The `n` elements of a ring whose read counter is `r`, oldest first. */
  ghost function Window<T>(slots: seq<T>, r: uint32, n: nat): (q: seq<T>)
    requires RingCapacity(|slots|)
    ensures |q| == n && forall i | 0 <= i < n :: q[i] == slots[SlotIndex(r + i, |slots|)]
  {
    seq(n, i requires 0 <= i => slots[SlotIndex(r + i, |slots|)])
  }

  lemma WindowPush<T>(slots: seq<T>, r: uint32, n: nat, x: T)
    requires RingCapacity(|slots|) && n < |slots|
    ensures Window(slots[SlotIndex(r + n, |slots|) := x], r, n + 1) == Window(slots, r, n) + [x]
  {
    var after := slots[SlotIndex(r + n, |slots|) := x];
    forall i | 0 <= i < n
      ensures Window(after, r, n + 1)[i] == Window(slots, r, n)[i]
    {
      SlotsDistinct(r, i, n, |slots|);
    }
  }

  lemma WindowPop<T>(slots: seq<T>, r: uint32, n: nat)
    requires RingCapacity(|slots|) && 0 < n
    ensures Window(slots, (r + 1) % TWO32, n - 1) == Window(slots, r, n)[1..]
  {
    var before, after := Window(slots, r, n), Window(slots, (r + 1) % TWO32, n - 1);
    forall i | 0 <= i < n - 1
      ensures after[i] == before[i + 1]
    {
      WrappedCounter(r + 1, i);
      assert r + 1 + i == r + (i + 1);
    }
  }

  lemma WindowFront<T>(slots: seq<T>, r: uint32, n: nat)
    requires RingCapacity(|slots|) && 0 < n
    ensures Window(slots, r, n) != [] && Window(slots, r, n)[0] == slots[r % |slots|]
  {
    assert r % TWO32 == r;
  }

  /** Both counters move by one: the fill follows, and the write counter is the slot after the last. */
  lemma CountersMove(r: uint32, w: uint32)
    ensures (r + (w - r) % TWO32) % TWO32 == w
    ensures (w - r) % TWO32 + 1 < TWO32 ==> ((w + 1) % TWO32 - r) % TWO32 == (w - r) % TWO32 + 1
    ensures r != w ==> 0 < (w - r) % TWO32 && (w - (r + 1) % TWO32) % TWO32 == (w - r) % TWO32 - 1
    ensures r == w ==> (w - r) % TWO32 == 0
  {
    WrapOnce(w - r);
    WrapOnce(w + 1);
    WrapOnce(r + 1);
    WrapOnce(r + (w - r) % TWO32);
    WrapOnce((w + 1) % TWO32 - r);
    WrapOnce(w - (r + 1) % TWO32);
  }

  lemma WrapOnce(x: int)
    requires -TWO32 <= x < 2 * TWO32
    ensures x % TWO32 == if x < 0 then x + TWO32 else if x < TWO32 then x else x - TWO32
  {
  }

  class CountedRing<T(0)> {
    const slots: array<T>
    const capacity: nat
    var r: uint32
    var w: uint32

    function Count(): nat
      reads this
    {
      (w - r) % TWO32
    }

    ghost predicate Valid()
      reads this
    {
      RingCapacity(capacity) && slots.Length == capacity && Count() <= capacity
    }

    ghost function Contents(): (q: seq<T>)
      requires Valid()
      reads this, slots
    {
      Window(slots[..], r, Count())
    }

    constructor (capacity: nat)
      requires RingCapacity(capacity)
      ensures Valid() && fresh(slots) && this.capacity == capacity
      ensures Contents() == []
    {
      this.capacity := capacity;
      slots := new T[capacity];
      r, w := 0, 0;
    }

    method Push(x: T) returns (ok: bool)
      requires Valid()
      modifies this`w, slots
      ensures Valid()
      ensures ok == (|old(Contents())| < capacity)
      ensures Contents() == Offer(old(Contents()), x, capacity)
    {
      if Count() >= capacity {
        return false;
      }
      CountersMove(r, w);
      WindowPush(slots[..], r, Count(), x);
      slots[w % capacity] := x;
      w := (w + 1) % TWO32;
      return true;
    }

    method Front() returns (x: T)
      requires Valid() && r != w
      ensures Contents() != [] && x == Contents()[0]
    {
      CountersMove(r, w);
      WindowFront(slots[..], r, Count());
      x := slots[r % capacity];
    }

    method Pop() returns (x: Option<T>)
      requires Valid()
      modifies this`r
      ensures Valid()
      ensures x == if old(Contents()) == [] then None else Some(old(Contents())[0])
      ensures Contents() == TakeOne(old(Contents()))
    {
      CountersMove(r, w);
      if r == w {
        return None;
      }
      WindowFront(slots[..], r, Count());
      WindowPop(slots[..], r, Count());
      x := Some(slots[r % capacity]);
      r := (r + 1) % TWO32;
    }
  }
}
