/** Arrival-order independence: exactly when the order and the repetition of a batch of
    arrivals cannot be seen in the jitter buffer. */
module JitterOrder {
  import opened Words
  import opened JitterModel
  import opened JitterRuns

  function PushAll(jb: JitterState, packets: seq<Packet>): JitterState
    decreases |packets|
  {
    if packets == [] then jb
    else PushAll(Push(jb, packets[0].seqNo, packets[0].payload), packets[1..])
  }

  ghost predicate Lands(p: Packet, packets: seq<Packet>, slot: nat) {
    p in packets && Accepted(p.payload) && p.seqNo % CAP == slot
  }

  /** Accepted packets of the batch that land in one slot are the same packet. */
  ghost predicate OnePacketPerSlot(packets: seq<Packet>) {
    forall p: Packet, q: Packet | Lands(p, packets, p.seqNo % CAP) && Lands(q, packets, p.seqNo % CAP) :: p == q
  }

  ghost predicate SamePackets(a: seq<Packet>, b: seq<Packet>) {
    forall p :: p in a <==> p in b
  }

  lemma {:induction false} SlotAfterAll(jb: JitterState, packets: seq<Packet>, slot: nat)
    requires jb.started && slot < CAP
    ensures var end := PushAll(jb, packets);
            && end.started && end.next == jb.next
            && ((exists p :: Lands(p, packets, slot) && end.table[slot] == Some(p))
                || (end.table[slot] == jb.table[slot] && forall p :: !Lands(p, packets, slot)))
    decreases |packets|
  {
    if packets != [] {
      var p0, rest := packets[0], packets[1..];
      var next := Push(jb, p0.seqNo, p0.payload);
      assert forall p :: Lands(p, packets, slot) <==>
          Lands(p, rest, slot) || (p == p0 && Accepted(p.payload) && p.seqNo % CAP == slot);
      SlotAfterAll(next, rest, slot);
    }
  }

  lemma {:induction false} PushAllAppend(jb: JitterState, packets: seq<Packet>, p: Packet)
    ensures PushAll(jb, packets + [p]) == Push(PushAll(jb, packets), p.seqNo, p.payload)
    decreases |packets|
  {
    if packets == [] {
      assert [p][1..] == [];
    } else {
      assert (packets + [p])[1..] == packets[1..] + [p];
      PushAllAppend(Push(jb, packets[0].seqNo, packets[0].payload), packets[1..], p);
    }
  }

  lemma SameBuffer(jb: JitterState, a: seq<Packet>, b: seq<Packet>)
    requires jb.started && OnePacketPerSlot(a) && SamePackets(a, b)
    ensures PushAll(jb, a) == PushAll(jb, b)
  {
    var endA, endB := PushAll(jb, a), PushAll(jb, b);
    SlotAfterAll(jb, a, 0);
    SlotAfterAll(jb, b, 0);
    forall slot | 0 <= slot < CAP
      ensures endA.table[slot] == endB.table[slot]
    {
      SlotAfterAll(jb, a, slot);
      SlotAfterAll(jb, b, slot);
      assert forall p :: Lands(p, a, slot) <==> Lands(p, b, slot);
    }
    assert endA.table == endB.table;
  }

  /** Once started, every delivery of the same packets (any order, any repetition) leaves
      the same buffer, and so the same results of all later pops, if and only if no two
      different accepted packets of the batch share a slot. */
  lemma ArrivalOrderExact(jb: JitterState, packets: seq<Packet>)
    requires jb.started
    ensures (forall a, b | SamePackets(a, packets) && SamePackets(b, packets) :: PushAll(jb, a) == PushAll(jb, b))
            <==> OnePacketPerSlot(packets)
  {
    if OnePacketPerSlot(packets) {
      forall a, b | SamePackets(a, packets) && SamePackets(b, packets)
        ensures PushAll(jb, a) == PushAll(jb, b)
      {
        SameBuffer(jb, packets, a);
        SameBuffer(jb, packets, b);
      }
    } else {
      var p: Packet, q: Packet :| Lands(p, packets, p.seqNo % CAP) && Lands(q, packets, p.seqNo % CAP) && p != q;
      LastArrivalWins(jb, packets, p);
      LastArrivalWins(jb, packets, q);
      assert PushAll(jb, packets + [p]) != PushAll(jb, packets + [q]);
    }
  }

  lemma LastArrivalWins(jb: JitterState, packets: seq<Packet>, p: Packet)
    requires Lands(p, packets, p.seqNo % CAP)
    ensures SamePackets(packets + [p], packets)
    ensures PushAll(jb, packets + [p]).table[p.seqNo % CAP] == Some(p)
  {
    PushAllAppend(jb, packets, p);
  }

  /** In particular any packets of one 128-number window, one payload per number, may
      arrive in any permutation. */
  lemma WindowArrivesInAnyOrder(jb: JitterState, first: nat, content: map<nat, seq<Byte>>, a: seq<Packet>,
                                b: seq<Packet>, ops: seq<Op>, n: nat)
    requires jb.started
    requires forall u | u in content :: first <= u < first + CAP
    requires forall p | p in a :: exists u | u in content :: p == Packet(u % TWO16, content[u])
    requires multiset(a) == multiset(b)
    ensures PushAll(jb, a) == PushAll(jb, b)
    ensures Results(Tracked(PushAll(jb, a), n), ops) == Results(Tracked(PushAll(jb, b), n), ops)
  {
    forall p: Packet, q: Packet | Lands(p, a, p.seqNo % CAP) && Lands(q, a, p.seqNo % CAP)
      ensures p == q
    {
      var u :| u in content && p == Packet(u % TWO16, content[u]);
      var v :| v in content && q == Packet(v % TWO16, content[v]);
      SlotSurvivesWrap(u);
      SlotSurvivesWrap(v);
      SameSlotNear(u, v);
    }
    forall p: Packet
      ensures p in a <==> p in b
    {
      assert p in a <==> p in multiset(a);
      assert p in b <==> p in multiset(b);
    }
    SameBuffer(jb, a, b);
  }
}
