/** The jitter buffer as the C code keeps it: an array of slots updated in place, the
    16-bit play cursor and the started flag. */
module JitterBuffers {
  import opened Words
  import opened JitterModel

  /** One slot. Bytes past `len` are left over from earlier packets. */
  datatype Slot = Slot(seqNo: uint16, len: nat, valid: bool, data: seq<Byte>) {
    ghost predicate WellFormed() {
      |data| == MAX_PACKET && len <= MAX_PACKET
    }

    ghost function View(): Option<Packet>
      requires WellFormed()
    {
      if valid then Some(Packet(seqNo, data[..len])) else None
    }
  }

  ghost function Views(slots: seq<Slot>): (views: seq<Option<Packet>>)
    requires forall s | 0 <= s < |slots| :: slots[s].WellFormed()
    ensures |views| == |slots| && forall s | 0 <= s < |slots| :: views[s] == slots[s].View()
  {
    seq(|slots|, s requires 0 <= s < |slots| && slots[s].WellFormed() => slots[s].View())
  }

  function Blank(): Slot {
    Slot(0, 0, false, seq(MAX_PACKET, _ => 0))
  }

  class JitterBuffer {
    const packets: array<Slot>
    var next: uint16
    var started: bool

    ghost predicate Valid()
      reads this, packets
    {
      && packets.Length == CAP
      && (forall s | 0 <= s < CAP :: packets[s].WellFormed())
      && Placed(Model())
    }

    ghost function Model(): (jb: JitterState)
      requires packets.Length == CAP
      requires forall s | 0 <= s < CAP :: packets[s].WellFormed()
      reads this, packets
      ensures forall s | 0 <= s < CAP :: jb.table[s] == packets[s].View()
      ensures jb.next == next && jb.started == started
    {
      JitterState(Views(packets[..]), next, started)
    }

    constructor ()
      ensures Valid() && fresh(packets)
      ensures Model() == Initial()
    {
      packets := new Slot[CAP](_ => Blank());
      next := 0;
      started := false;
      new;
      assert Model().table == Empty();
    }

    method Push(seqNo: uint16, payload: seq<Byte>)
      requires Valid()
      modifies this, packets
      ensures Valid()
      ensures Model() == JitterModel.Push(old(Model()), seqNo, payload)
    {
      ghost var before := Model();
      OperationsKeepPlacement(before, seqNo, payload);
      if |payload| == 0 || |payload| > MAX_PACKET {
        return;
      }
      WriteSlot(seqNo % CAP, seqNo, payload);
      if !started {
        started := true;
        next := seqNo;
      }
      assert Model().table == before.table[seqNo % CAP := Some(Packet(seqNo, payload))];
      assert Model() == JitterModel.Push(before, seqNo, payload);
    }

    /** The header fields first, then the payload byte by byte. */
    method WriteSlot(slot: nat, seqNo: uint16, payload: seq<Byte>)
      requires slot < packets.Length && packets[slot].WellFormed() && |payload| <= MAX_PACKET
      modifies packets
      ensures packets[slot].WellFormed() && packets[slot].View() == Some(Packet(seqNo, payload))
      ensures forall s | 0 <= s < packets.Length && s != slot :: packets[s] == old(packets[s])
    {
      packets[slot] := packets[slot].(seqNo := seqNo, len := |payload|, valid := true);
      for i := 0 to |payload|
        invariant packets[slot].WellFormed()
        invariant packets[slot] == Slot(seqNo, |payload|, true, packets[slot].data)
        invariant packets[slot].data[..i] == payload[..i]
        invariant forall s | 0 <= s < packets.Length && s != slot :: packets[s] == old(packets[s])
      {
        packets[slot] := packets[slot].(data := packets[slot].data[i := payload[i]]);
      }
      assert packets[slot].data[..|payload|] == payload;
    }

    method HasFuturePacket(want: uint16) returns (found: bool)
      requires Valid() && want == next
      ensures found == HasFuture(Model())
    {
      for ahead := 1 to CAP
        invariant forall a: nat | 1 <= a < ahead :: !HoldsAhead(Model(), a)
      {
        var seqNo := (want + ahead) % TWO16;
        var slot := seqNo % CAP;
        if packets[slot].valid && packets[slot].seqNo == seqNo {
          assert HoldsAhead(Model(), ahead);
          return true;
        }
        assert !HoldsAhead(Model(), ahead);
      }
      return false;
    }

    /** `Frame` carries the bytes that the returned pointer designates until the slot is
        written again. */
    method Pop() returns (result: PopResult)
      requires Valid()
      modifies this, packets
      ensures Valid()
      ensures (Model(), result) == JitterModel.Pop(old(Model()))
    {
      OperationsKeepPlacement(Model(), 0, []);
      if !started {
        return Idle;
      }
      var want := next;
      var slot := want % CAP;
      if packets[slot].valid && packets[slot].seqNo == want {
        result := TakePacket(slot);
        return;
      }
      var future := HasFuturePacket(want);
      if future {
        StepOver();
        return Conceal;
      }
      return Idle;
    }

    method StepOver()
      requires Valid() && started
      modifies this`next
      ensures Valid()
      ensures Model() == old(Model()).(next := (old(next) + 1) % TWO16)
    {
      next := (next + 1) % TWO16;
      assert Model().table == old(Model()).table;
    }

    /** The wanted packet is handed out and its slot freed. */
    method TakePacket(slot: nat) returns (result: PopResult)
      requires Valid() && started && slot == next % CAP && packets[slot].valid && packets[slot].seqNo == next
      modifies this`next, packets
      ensures Valid()
      ensures (Model(), result) == JitterModel.Pop(old(Model()))
    {
      OperationsKeepPlacement(Model(), 0, []);
      ghost var popped := JitterModel.Pop(Model());
      result := Frame(packets[slot].data[..packets[slot].len]);
      packets[slot] := packets[slot].(valid := false);
      next := (next + 1) % TWO16;
      assert Model().table == popped.0.table;
    }
  }
}
