/** The per-speaker jitter buffer as a value: a direct-mapped table of 128 slots keyed by a
    wrapping 16-bit sequence number. `JitterBuffer` in JitterBuffer.dfy is proved against
    these functions; the Jitter*.dfy theorems are about them. */
module JitterModel {
  import opened Words

  const CAP := 128
  const MAX_PACKET := 600

  datatype Packet = Packet(seqNo: uint16, payload: seq<Byte>)

  type Table = t: seq<Option<Packet>> | |t| == CAP witness seq(CAP, _ => None)

  function Empty(): Table { seq(CAP, _ => None) }

  datatype JitterState = JitterState(table: Table, next: uint16, started: bool)

  function Initial(): JitterState { JitterState(Empty(), 0, false) }

  /** What one pop produces: nothing, the wanted packet, or a request to conceal its loss. */
  datatype PopResult = Idle | Frame(payload: seq<Byte>) | Conceal

  predicate Accepted(payload: seq<Byte>) {
    1 <= |payload| <= MAX_PACKET
  }

  /** The slot of `number` holds a packet with that number modulo 2^16. The argument may be
      an unwrapped number: only its residue matters. */
  predicate Holds(jb: JitterState, number: nat) {
    var slot := jb.table[number % CAP];
    slot.Some? && slot.value.seqNo == number % TWO16
  }

  predicate HoldsAhead(jb: JitterState, ahead: nat) {
    Holds(jb, (jb.next + ahead) % TWO16)
  }

  /** A later packet is buffered within the next 127 numbers. */
  predicate HasFuture(jb: JitterState) {
    exists ahead | 1 <= ahead < CAP :: HoldsAhead(jb, ahead)
  }

  function Push(jb: JitterState, seqNo: uint16, payload: seq<Byte>): JitterState {
    if !Accepted(payload) then jb
    else JitterState(jb.table[seqNo % CAP := Some(Packet(seqNo, payload))],
                     if jb.started then jb.next else seqNo,
                     true)
  }

  function Pop(jb: JitterState): (JitterState, PopResult) {
    if !jb.started then (jb, Idle)
    else if Holds(jb, jb.next) then
      (JitterState(jb.table[jb.next % CAP := None], (jb.next + 1) % TWO16, true),
       Frame(jb.table[jb.next % CAP].value.payload))
    else if HasFuture(jb) then
      (jb.(next := (jb.next + 1) % TWO16), Conceal)
    else
      (jb, Idle)
  }

  /** Every packet sits in the slot of its own number, and nothing is buffered before the
      first push. */
  ghost predicate Placed(jb: JitterState) {
    && (forall s | 0 <= s < CAP && jb.table[s].Some? ::
          jb.table[s].value.seqNo % CAP == s && Accepted(jb.table[s].value.payload))
    && (!jb.started ==> jb.table == Empty())
  }

  lemma OperationsKeepPlacement(jb: JitterState, seqNo: uint16, payload: seq<Byte>)
    requires Placed(jb)
    ensures Placed(Push(jb, seqNo, payload))
    ensures Placed(Pop(jb).0)
    ensures Pop(jb).1.Frame? ==> Accepted(Pop(jb).1.payload)
  {
    if jb.started && Holds(jb, jb.next) {
      assert jb.table[jb.next % CAP].Some?;
    }
  }

  lemma HoldsUnwrapped(jb: JitterState, number: nat)
    ensures Holds(jb, number) == Holds(jb, number % TWO16)
  {
    SlotSurvivesWrap(number);
  }

  /** Read against any unwrapped position `n` of the play cursor, the look-ahead is the
      statement that one of the numbers n+1 .. n+127 is buffered. */
  lemma FutureUnwrapped(jb: JitterState, n: nat)
    requires jb.next == n % TWO16
    ensures Holds(jb, n) == Holds(jb, jb.next)
    ensures forall ahead: nat :: HoldsAhead(jb, ahead) == Holds(jb, n + ahead)
    ensures HasFuture(jb) <==> exists u: nat | n < u < n + CAP :: Holds(jb, u)
  {
    HoldsUnwrapped(jb, n);
    forall ahead: nat
      ensures HoldsAhead(jb, ahead) == Holds(jb, n + ahead)
    {
      AddThenWrap(n, ahead);
      HoldsUnwrapped(jb, n + ahead);
    }
    if u: nat :| n < u < n + CAP && Holds(jb, u) {
      assert HoldsAhead(jb, u - n);
    }
  }

  lemma AddThenWrap(n: nat, k: nat)
    ensures (n % TWO16 + k) % TWO16 == (n + k) % TWO16
  {
  }

  /** An idle pop changes nothing, so once idle a buffer stays idle until the next push. */
  lemma IdleIsStable(jb: JitterState)
    ensures Pop(jb).1.Idle? ==> Pop(jb).0 == jb
    ensures Pop(jb).1.Idle? <==> !jb.started || (!Holds(jb, jb.next) && !HasFuture(jb))
  {
  }

  /** A packet that arrives `j` numbers late evicts the buffered packet 128-j ahead of the
      cursor: late packets are not harmless. */
  lemma LatePushEvicts(jb: JitterState, n: nat, j: nat, payload: seq<Byte>)
    requires jb.started && 1 <= j < CAP && j <= n && Accepted(payload)
    ensures !Holds(Push(jb, (n - j) % TWO16, payload), n + CAP - j)
    ensures Push(jb, (n - j) % TWO16, payload).next == jb.next
  {
    var late, victim := n - j, n + CAP - j;
    SlotSurvivesWrap(late);
    assert victim == late + CAP;
    assert victim % CAP == late % CAP by {
      Remainder128(victim, late / CAP + 1, late % CAP);
    }
    if late % TWO16 == victim % TWO16 {
      SameWordNear(late, victim);
    }
  }
}
