/** JOIN and VOICE packets: the header struct, the builders and the parsers, and the round
    trips between them in both directions. */
module Packets {
  import opened Words
  import opened WireFormat

  datatype Result<+T> = Ok(value: T) | Err(code: int)

  /** The packed header struct as it lies in memory: 16- and 32-bit fields hold swapped values. */
  datatype RawHeader = RawHeader(
    magic: bv32, version: Byte, typ: Byte, flags: Byte, reserved0: Byte,
    speakerId: bv16, seqNo: bv16, payloadLen: bv16)

  /** The header after parsing, in host order. */
  datatype Header = Header(typ: Byte, flags: Byte, speakerId: uint16, seqNo: uint16, payloadLen: uint16)

  datatype Voice = Voice(speakerId: uint16, seqNo: uint16, flags: Byte, payload: seq<Byte>)

  datatype Join = Join(sessionId: bv64, playerId: uint16)

  function HdrInit(typ: Byte, speakerId: uint16, seqNo: uint16, payloadLen: uint16, flags: Byte): RawHeader {
    RawHeader(Bswap32(MAGIC), PROTO_VER, typ, flags, 0,
              Bswap16(speakerId as bv16), Bswap16(seqNo as bv16), Bswap16(payloadLen as bv16))
  }

  function HeaderBytes(h: RawHeader): (b: seq<Byte>)
    ensures |b| == HEADER_SIZE
  {
    Store32(h.magic) + [h.version, h.typ, h.flags, h.reserved0]
    + Store16(h.speakerId) + Store16(h.seqNo) + Store16(h.payloadLen)
  }

  function HeaderFrom(b: seq<Byte>): RawHeader
    requires |b| >= HEADER_SIZE
  {
    RawHeader(Load32(b[0..4]), b[4], b[5], b[6], b[7], Load16(b[8..10]), Load16(b[10..12]), Load16(b[12..14]))
  }

  function JoinPacket(j: Join): (b: seq<Byte>)
    ensures |b| == HEADER_SIZE + JOIN_SIZE
  {
    HeaderBytes(HdrInit(PKT_JOIN, 0, 0, JOIN_SIZE, 0))
    + Store64(Bswap64(j.sessionId)) + Wire16(j.playerId) + Wire16(0)
  }

  function VoicePacket(v: Voice): (b: seq<Byte>)
    requires |v.payload| < TWO16
    ensures |b| == HEADER_SIZE + |v.payload|
  {
    HeaderBytes(HdrInit(PKT_VOICE, v.speakerId, v.seqNo, |v.payload|, v.flags)) + v.payload
  }

  function ParseHeader(buf: seq<Byte>): Result<Header> {
    if |buf| < HEADER_SIZE then Err(-1) else CheckHeader(HeaderFrom(buf), |buf|)
  }

  /** The swaps and checks on the header of a buffer of `len` bytes. */
  function CheckHeader(h: RawHeader, len: nat): Result<Header> {
    if Bswap32(h.magic) != MAGIC then Err(-2)
    else if h.version != PROTO_VER then Err(-3)
    else
      var payloadLen := Bswap16(h.payloadLen) as int;
      if payloadLen == 0 || len < HEADER_SIZE + payloadLen then Err(-4)
      else Ok(Header(h.typ, h.flags, Bswap16(h.speakerId) as int, Bswap16(h.seqNo) as int, payloadLen))
  }

  function ParseJoin(buf: seq<Byte>): Result<Join> {
    match ParseHeader(buf)
    case Err(code) => Err(code)
    case Ok(h) =>
      if h.typ != PKT_JOIN then Err(-10)
      else if h.payloadLen != JOIN_SIZE then Err(-11)
      else Ok(Join(Bswap64(Load64(buf[14..22])), Unwire16(buf[22..24])))
  }

  function ParseVoice(buf: seq<Byte>): Result<Voice> {
    match ParseHeader(buf)
    case Err(code) => Err(code)
    case Ok(h) =>
      if h.typ != PKT_VOICE then Err(-20)
      else Ok(Voice(h.speakerId, h.seqNo, h.flags, buf[HEADER_SIZE..HEADER_SIZE + h.payloadLen]))
  }

  // ----- the builders write into the caller's buffer

  method CopyInto(out: array<Byte>, at: nat, bytes: seq<Byte>)
    requires at + |bytes| <= out.Length
    modifies out
    ensures out[..] == old(out[..at]) + bytes + old(out[at + |bytes|..])
  {
    forall i | 0 <= i < |bytes| {
      out[at + i] := bytes[i];
    }
  }

  /** The buffer must really hold `outCap` bytes and the payload pointer `payloadLen` bytes. */
  method BuildVoicePacket(out: array<Byte>, outCap: int, speakerId: uint16, seqNo: uint16, flags: Byte,
                          payload: seq<Byte>, payloadLen: uint16)
    returns (written: int)
    requires outCap <= out.Length && payloadLen <= |payload|
    modifies out
    ensures payloadLen == 0 ==> written == -2
    ensures payloadLen != 0 && outCap < HEADER_SIZE + payloadLen ==> written == -3
    ensures written < 0 ==> out[..] == old(out[..])
    ensures payloadLen != 0 && outCap >= HEADER_SIZE + payloadLen ==>
              && written == HEADER_SIZE + payloadLen
              && out[..] == VoicePacket(Voice(speakerId, seqNo, flags, payload[..payloadLen])) + old(out[written..])
  {
    if payloadLen == 0 {
      return -2;
    }
    var need := HEADER_SIZE + payloadLen;
    if outCap < need {
      return -3;
    }
    var h := HdrInit(PKT_VOICE, speakerId, seqNo, payloadLen, flags);
    CopyInto(out, 0, HeaderBytes(h));
    CopyInto(out, HEADER_SIZE, payload[..payloadLen]);
    return need;
  }

  method BuildJoinPacket(out: array<Byte>, outCap: int, sessionId: bv64, playerId: uint16) returns (written: int)
    requires outCap <= out.Length
    modifies out
    ensures outCap < HEADER_SIZE + JOIN_SIZE ==> written == -2 && out[..] == old(out[..])
    ensures outCap >= HEADER_SIZE + JOIN_SIZE ==>
              && written == HEADER_SIZE + JOIN_SIZE
              && out[..] == JoinPacket(Join(sessionId, playerId)) + old(out[written..])
  {
    var need := HEADER_SIZE + JOIN_SIZE;
    if outCap < need {
      return -2;
    }
    var h := HdrInit(PKT_JOIN, 0, 0, JOIN_SIZE, 0);
    CopyInto(out, 0, HeaderBytes(h));
    CopyInto(out, HEADER_SIZE, Store64(Bswap64(sessionId)) + Wire16(playerId) + Wire16(0));
    return need;
  }

  // ----- round trips

  lemma HeaderSurvivesMemory(h: RawHeader, rest: seq<Byte>)
    ensures HeaderFrom(HeaderBytes(h) + rest) == h
  {
    var b := HeaderBytes(h) + rest;
    Memory32(h.magic);
    Memory16(h.speakerId);
    Memory16(h.seqNo);
    Memory16(h.payloadLen);
    assert b[0..4] == Store32(h.magic);
    assert b[8..10] == Store16(h.speakerId);
    assert b[10..12] == Store16(h.seqNo);
    assert b[12..14] == Store16(h.payloadLen);
  }

  lemma MemorySurvivesHeader(b: seq<Byte>)
    requires |b| >= HEADER_SIZE
    ensures HeaderBytes(HeaderFrom(b)) == b[..HEADER_SIZE]
  {
    Bytes32(b[0], b[1], b[2], b[3]);
    Bytes16(b[8], b[9]);
    Bytes16(b[10], b[11]);
    Bytes16(b[12], b[13]);
    assert b[0..4] == [b[0], b[1], b[2], b[3]];
    assert b[8..10] == [b[8], b[9]];
    assert b[10..12] == [b[10], b[11]];
    assert b[12..14] == [b[12], b[13]];
  }

  lemma Swap16RoundTrip(x: uint16, w: bv16)
    ensures Bswap16(Bswap16(x as bv16)) as int == x
    ensures Bswap16((Bswap16(w) as int) as bv16) == w
  {
    Word16RoundTrip(x);
    SwapsAreInvolutions(x as bv16, 0, 0);
    SwapsAreInvolutions(w, 0, 0);
    Word16Injective(Bswap16(w));
  }

  /** Parsing the header of any packet made by `HdrInit`, whatever follows it. */
  lemma HeaderRoundTrip(typ: Byte, speakerId: uint16, seqNo: uint16, payloadLen: uint16, flags: Byte, rest: seq<Byte>)
    ensures ParseHeader(HeaderBytes(HdrInit(typ, speakerId, seqNo, payloadLen, flags)) + rest) ==
            if 1 <= payloadLen <= |rest| then Ok(Header(typ, flags, speakerId, seqNo, payloadLen)) else Err(-4)
  {
    HeaderSurvivesMemory(HdrInit(typ, speakerId, seqNo, payloadLen, flags), rest);
    Swap16RoundTrip(speakerId, 0);
    Swap16RoundTrip(seqNo, 0);
    Swap16RoundTrip(payloadLen, 0);
  }

  /** A built voice packet parses to its own fields and payload, even with trailing bytes. */
  lemma VoiceRoundTrip(v: Voice, trailing: seq<Byte>)
    requires 1 <= |v.payload| < TWO16
    ensures ParseVoice(VoicePacket(v) + trailing) == Ok(v)
    ensures ParseJoin(VoicePacket(v) + trailing) == Err(-10)
    ensures ParseHeader(VoicePacket(v) + trailing) ==
            Ok(Header(PKT_VOICE, v.flags, v.speakerId, v.seqNo, |v.payload|))
  {
    var h := HdrInit(PKT_VOICE, v.speakerId, v.seqNo, |v.payload|, v.flags);
    var buf := VoicePacket(v) + trailing;
    assert buf == HeaderBytes(h) + (v.payload + trailing);
    HeaderRoundTrip(PKT_VOICE, v.speakerId, v.seqNo, |v.payload|, v.flags, v.payload + trailing);
    assert buf[HEADER_SIZE..HEADER_SIZE + |v.payload|] == v.payload;
  }

  /** A built join packet parses to its own session and player, and is no voice packet. */
  lemma JoinRoundTrip(j: Join, trailing: seq<Byte>)
    ensures ParseJoin(JoinPacket(j) + trailing) == Ok(j)
    ensures ParseVoice(JoinPacket(j) + trailing) == Err(-20)
  {
    var h := HdrInit(PKT_JOIN, 0, 0, JOIN_SIZE, 0);
    var body := Store64(Bswap64(j.sessionId)) + Wire16(j.playerId) + Wire16(0);
    var buf := JoinPacket(j) + trailing;
    assert buf == HeaderBytes(h) + (body + trailing);
    HeaderRoundTrip(PKT_JOIN, 0, 0, JOIN_SIZE, 0, body + trailing);
    Memory64(Bswap64(j.sessionId));
    SwapsAreInvolutions(0, 0, j.sessionId);
    Wire16RoundTrip(j.playerId);
    assert buf[14..22] == Store64(Bswap64(j.sessionId));
    assert buf[22..24] == Wire16(j.playerId);
  }

  lemma ParsedHeaderRebuilds(buf: seq<Byte>)
    requires ParseHeader(buf).Ok?
    ensures var h := ParseHeader(buf).value;
            && 1 <= h.payloadLen <= |buf| - HEADER_SIZE
            && HdrInit(h.typ, h.speakerId, h.seqNo, h.payloadLen, h.flags) == HeaderFrom(buf).(reserved0 := 0)
  {
    var raw := HeaderFrom(buf);
    Swap16RoundTrip(0, raw.speakerId);
    Swap16RoundTrip(0, raw.seqNo);
    Swap16RoundTrip(0, raw.payloadLen);
    SwapsAreInvolutions(0, raw.magic, 0);
  }

  lemma ReservedByteOf(raw: RawHeader)
    ensures HeaderBytes(raw.(reserved0 := 0)) == HeaderBytes(raw)[7 := 0]
    ensures HeaderBytes(raw)[7] == raw.reserved0
  {
  }

  /** The other direction: whatever bytes parse as a voice packet, rebuilding the packet
      from the parsed fields reproduces them, the reserved byte apart, which becomes zero. */
  lemma ParsedVoiceRebuilds(buf: seq<Byte>)
    requires ParseVoice(buf).Ok?
    ensures var v := ParseVoice(buf).value;
            && 1 <= |v.payload| < TWO16
            && HEADER_SIZE + |v.payload| <= |buf|
            && VoicePacket(v) == buf[..HEADER_SIZE + |v.payload|][7 := 0]
            && (VoicePacket(v) == buf[..HEADER_SIZE + |v.payload|] <==> buf[7] == 0)
  {
    var h := ParseHeader(buf).value;
    ParsedHeaderRebuilds(buf);
    RebuiltPacket(buf, h, ParseVoice(buf).value);
  }

  lemma RebuiltPacket(buf: seq<Byte>, h: Header, v: Voice)
    requires h.typ == PKT_VOICE && 1 <= h.payloadLen && HEADER_SIZE + h.payloadLen <= |buf|
    requires HdrInit(h.typ, h.speakerId, h.seqNo, h.payloadLen, h.flags) == HeaderFrom(buf).(reserved0 := 0)
    requires v == Voice(h.speakerId, h.seqNo, h.flags, buf[HEADER_SIZE..HEADER_SIZE + h.payloadLen])
    ensures VoicePacket(v) == buf[..HEADER_SIZE + |v.payload|][7 := 0]
    ensures VoicePacket(v) == buf[..HEADER_SIZE + |v.payload|] <==> buf[7] == 0
  {
    RebuiltBytes(buf, HdrInit(h.typ, h.speakerId, h.seqNo, h.payloadLen, h.flags), h.payloadLen);
    assert |v.payload| == h.payloadLen;
  }

  lemma RebuiltBytes(buf: seq<Byte>, init: RawHeader, n: nat)
    requires HEADER_SIZE + n <= |buf| && init == HeaderFrom(buf).(reserved0 := 0)
    ensures HeaderBytes(init) + buf[HEADER_SIZE..HEADER_SIZE + n] == buf[..HEADER_SIZE + n][7 := 0]
    ensures HeaderBytes(init) + buf[HEADER_SIZE..HEADER_SIZE + n] == buf[..HEADER_SIZE + n] <==> buf[7] == 0
  {
    MemorySurvivesHeader(buf);
    ReservedByteOf(HeaderFrom(buf));
    ZeroedPrefix(buf, HeaderBytes(HeaderFrom(buf)), n);
  }

  lemma ZeroedPrefix(buf: seq<Byte>, head: seq<Byte>, n: nat)
    requires HEADER_SIZE + n <= |buf| && head == buf[..HEADER_SIZE]
    ensures buf[..HEADER_SIZE + n][7 := 0] == head[7 := 0] + buf[HEADER_SIZE..HEADER_SIZE + n]
    ensures buf[..HEADER_SIZE + n] == head[7 := 0] + buf[HEADER_SIZE..HEADER_SIZE + n] <==> buf[7] == 0
  {
    var zeroed := head[7 := 0] + buf[HEADER_SIZE..HEADER_SIZE + n];
    assert zeroed[7] == 0;
    assert buf[..HEADER_SIZE + n][7] == buf[7];
    if buf[7] == 0 {
      assert buf[..HEADER_SIZE + n] == zeroed;
    }
  }

  lemma RebuiltVoiceParses(buf: seq<Byte>, v: Voice)
    requires 1 <= |v.payload| < TWO16 && HEADER_SIZE + |v.payload| <= |buf|
    requires buf[..HEADER_SIZE + |v.payload|][7 := 0] == VoicePacket(v)
    ensures ParseVoice(buf) == Ok(v)
  {
    var trailing := buf[HEADER_SIZE + |v.payload|..];
    VoiceRoundTrip(v, trailing);
    ZeroedFront(buf, HEADER_SIZE + |v.payload|);
    ReservedByteIgnored(buf);
  }

  lemma ZeroedFront(buf: seq<Byte>, n: nat)
    requires HEADER_SIZE <= n <= |buf|
    ensures buf[..n][7 := 0] + buf[n..] == buf[7 := 0]
  {
  }

  /** So the voice parser accepts exactly the built packets: any reserved byte, any bytes after. */
  lemma VoiceLanguage(buf: seq<Byte>, v: Voice)
    ensures ParseVoice(buf) == Ok(v) <==>
            && 1 <= |v.payload| < TWO16
            && HEADER_SIZE + |v.payload| <= |buf|
            && buf[..HEADER_SIZE + |v.payload|][7 := 0] == VoicePacket(v)
  {
    if ParseVoice(buf) == Ok(v) {
      ParsedVoiceRebuilds(buf);
    }
    if && 1 <= |v.payload| < TWO16
       && HEADER_SIZE + |v.payload| <= |buf|
       && buf[..HEADER_SIZE + |v.payload|][7 := 0] == VoicePacket(v) {
      RebuiltVoiceParses(buf, v);
    }
  }

  lemma ReservedByteIgnored(buf: seq<Byte>)
    requires |buf| >= HEADER_SIZE
    ensures ParseVoice(buf[7 := 0]) == ParseVoice(buf)
  {
    SameHeader(buf);
    if ParseHeader(buf).Ok? {
      HeaderInside(buf);
      ZeroedPayload(buf, HEADER_SIZE + ParseHeader(buf).value.payloadLen);
    }
  }

  lemma SameHeader(buf: seq<Byte>)
    requires |buf| >= HEADER_SIZE
    ensures ParseHeader(buf[7 := 0]) == ParseHeader(buf)
  {
    ZeroedHeader(buf);
    SameChecks(HeaderFrom(buf), |buf|);
  }

  lemma HeaderInside(buf: seq<Byte>)
    requires ParseHeader(buf).Ok?
    ensures HEADER_SIZE + ParseHeader(buf).value.payloadLen <= |buf|
  {
  }

  lemma SameChecks(h: RawHeader, len: nat)
    ensures CheckHeader(h.(reserved0 := 0), len) == CheckHeader(h, len)
  {
  }

  lemma ZeroedPayload(buf: seq<Byte>, n: nat)
    requires HEADER_SIZE <= n <= |buf|
    ensures buf[7 := 0][HEADER_SIZE..n] == buf[HEADER_SIZE..n]
  {
  }

  lemma ZeroedHeader(buf: seq<Byte>)
    requires |buf| >= HEADER_SIZE
    ensures HeaderFrom(buf[7 := 0]) == HeaderFrom(buf).(reserved0 := 0)
  {
    var z := buf[7 := 0];
    assert z[0..4] == buf[0..4] && z[8..10] == buf[8..10] && z[10..12] == buf[10..12] && z[12..14] == buf[12..14];
  }
}
