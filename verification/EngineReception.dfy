/** What a delivered datagram does, stated from its bytes: whom it reaches, what the speaker's
    buffer holds afterwards, and what the host hears. */
module EngineReception {
  import opened Words
  import opened BoundedFifo
  import opened WireFormat
  import opened Packets
  import opened PacketLayout
  import opened JitterModel
  import opened EngineModel
  import opened EngineSpeakers

  /** The bytes are a voice packet of speaker k+1, and an engine of so many players has a place
      for it; the player count is read modulo 65536. */
  predicate IsVoiceFor(data: seq<Byte>, maxPlayers: uint32, k: nat) {
    && |data| < 0x8000_0000
    && ParseVoice(data).Ok?
    && ParseVoice(data).value.speakerId == k + 1 <= maxPlayers % 0x1_0000
  }

  lemma AddressedIs(setup: Setup, data: seq<Byte>)
    requires OnTheWire(setup.format)
    ensures Addressed(setup, data).Some? <==> exists k: nat :: IsVoiceFor(data, setup.maxPlayers, k)
    ensures Addressed(setup, data).Some? ==>
              && ParseVoice(data) == Ok(Addressed(setup, data).value)
              && 1 <= Addressed(setup, data).value.speakerId
              && IsVoiceFor(data, setup.maxPlayers, Addressed(setup, data).value.speakerId - 1)
  {
    assert setup.format.read(data) == ReadDatagram(data);
    if k: nat :| IsVoiceFor(data, setup.maxPlayers, k) {
      assert Addressed(setup, data) == Some(ParseVoice(data).value);
    }
    if Addressed(setup, data).Some? {
      assert IsVoiceFor(data, setup.maxPlayers, ParseVoice(data).value.speakerId - 1);
    }
  }

  /** The buffer after a packet: the packet in the slot of its number, all else as before. */
  ghost predicate Buffers(before: JitterState, after: JitterState, seqNo: uint16, payload: seq<Byte>) {
    if 1 <= |payload| <= 600 then
      && after.table[seqNo % 128] == Some(Packet(seqNo, payload))
      && (forall s | 0 <= s < 128 && s != seqNo % 128 :: after.table[s] == before.table[s])
      && after.started
      && after.next == (if before.started then before.next else seqNo)
    else
      after == before
  }

  /** A speaker after a packet of its own. */
  ghost predicate ReceivedBy(before: Speaker, after: Speaker, v: Voice, now: uint32) {
    && Buffers(before.jitter, after.jitter, v.seqNo, v.payload)
    && after.speaking && after.lastRxMs == now && after.lastRxFlags == v.flags
    && after.decoderLog == before.decoderLog && after.pcm == before.pcm && after.pcmCount == before.pcmCount
  }

  /** A datagram, and one speaker of the engine: its own voice packet is buffered, and
      announced if the speaker was silent; any other datagram leaves it alone. */
  lemma IngestReaches(setup: Setup, e: Engine, data: seq<Byte>, now: uint32, k: nat)
    requires OnTheWire(setup.format) && k < |e.speakers| == setup.maxPlayers
    ensures var t := Ingest(setup, e, data, now);
            && |t.engine.speakers| == |e.speakers|
            && if IsVoiceFor(data, setup.maxPlayers, k) then
                 && ReceivedBy(e.speakers[k], t.engine.speakers[k], ParseVoice(data).value, now)
                 && t.attempted == (if e.speakers[k].speaking then [] else [SpeakingEvent(k + 1, true)])
               else
                 t.engine.speakers[k] == e.speakers[k]
  {
    AddressedIs(setup, data);
    if IsVoiceFor(data, setup.maxPlayers, k) {
      IngestOfVoice(setup, e, data, now, ParseVoice(data).value);
      ArrivalIs(e.speakers[k], ParseVoice(data).value, now);
    } else if Addressed(setup, data).Some? {
      IngestOfVoice(setup, e, data, now, Addressed(setup, data).value);
    }
  }

  lemma ArrivalIs(sp: Speaker, v: Voice, now: uint32)
    ensures ReceivedBy(sp, Arrival(sp, v, now), v, now)
  {
  }

  /** A datagram for nobody changes nothing. */
  lemma IngestOfNobody(setup: Setup, e: Engine, data: seq<Byte>, now: uint32)
    requires OnTheWire(setup.format) && |e.speakers| == setup.maxPlayers
    requires forall k: nat :: !IsVoiceFor(data, setup.maxPlayers, k)
    ensures Ingest(setup, e, data, now) == Quiet(e)
  {
    AddressedIs(setup, data);
  }

  /** Only an empty datagram is refused; any other that is not a voice packet is ignored. */
  lemma OnlyEmptyIsRefused(setup: Setup, e: Engine, data: seq<Byte>, now: uint32)
    requires OnTheWire(setup.format) && |e.speakers| == setup.maxPlayers
    ensures IngestStatus(data) == if data == [] then -1 else 0
    ensures IngestStatus(data) != 0 || !ParseVoice(data).Ok? ==> Ingest(setup, e, data, now) == Quiet(e)
  {
    if IngestStatus(data) != 0 || !ParseVoice(data).Ok? {
      IngestOfNobody(setup, e, data, now);
    }
  }

  /** Along runs a speaker gets exactly the voice packets among the datagrams that are its own. */
  lemma StepIsDelivery(setup: Setup, data: seq<Byte>, now: uint32, k: nat)
    requires OnTheWire(setup.format)
    ensures StepOf(setup, DoIngest(data, now), k) ==
            if IsVoiceFor(data, setup.maxPlayers, k) then Got(ParseVoice(data).value, now) else Nothing
  {
    AddressedIs(setup, data);
    if IsVoiceFor(data, setup.maxPlayers, k) {
      assert Addressed(setup, data).Some?;
    }
  }

  /** The calls that deliver to speaker k, whatever the model makes of them. */
  predicate BringsVoice(setup: Setup, call: Call, k: nat) {
    call.DoIngest? && IsVoiceFor(call.data, setup.maxPlayers, k)
  }

  lemma StepIs(setup: Setup, call: Call, k: nat)
    requires OnTheWire(setup.format)
    ensures StepOf(setup, call, k).Got? <==> BringsVoice(setup, call, k)
    ensures BringsVoice(setup, call, k) ==> StepOf(setup, call, k) == Got(ParseVoice(call.data).value, call.now)
    ensures StepOf(setup, call, k).Ticked? <==> call.DoTick?
  {
    if call.DoIngest? {
      StepIsDelivery(setup, call.data, call.now, k);
    }
  }

  /** The flags of the last packet delivered to a speaker, 0 before the first. */
  function LastFlags(setup: Setup, calls: seq<Call>, k: nat): Byte {
    if calls == [] then 0
    else if BringsVoice(setup, calls[|calls| - 1], k) then ParseVoice(calls[|calls| - 1].data).value.flags
    else LastFlags(setup, calls[..|calls| - 1], k)
  }

  lemma {:induction false} FlagsAreLast(setup: Setup, calls: seq<Call>, k: nat)
    requires OnTheWire(setup.format)
    ensures RunSpeaker(setup, NewSpeaker(setup), StepsOf(setup, calls, k)).lastRxFlags == LastFlags(setup, calls, k)
    decreases |calls|
  {
    if calls != [] {
      var n := |calls| - 1;
      FlagsAreLast(setup, calls[..n], k);
      StepIs(setup, calls[n], k);
      var steps := StepsOf(setup, calls, k);
      assert steps[..n] == StepsOf(setup, calls[..n], k) && steps[n] == StepOf(setup, calls[n], k);
    }
  }

  /** Over any run a speaker's flags are those of the last packet delivered to it. */
  lemma SpeakerFlagsAreLast(setup: Setup, calls: seq<Call>, k: nat)
    requires Sound(setup) && OnTheWire(setup.format) && k < setup.maxPlayers && k < TWO16 - 1
    ensures History(setup, calls).engine.speakers[k].lastRxFlags == LastFlags(setup, calls, k)
  {
    RunProjects(setup, calls, k);
    FlagsAreLast(setup, calls, k);
  }
}
