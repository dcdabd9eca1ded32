/** Where the bytes of a packet lie, and what the parsers read at those places: the layout a
    receiver of another make would have to follow. */
module PacketLayout {
  import opened Words
  import opened WireFormat
  import opened Packets

  /** The big-endian number at a position. */
  function Be16(b: seq<Byte>, at: nat): int
    requires at + 2 <= |b|
  {
    (b[at] as int) * 256 + b[at + 1] as int
  }

  /** The magic, "CVVR". */
  predicate HasMagic(b: seq<Byte>)
    requires |b| >= 4
  {
    b[0] == 0x43 && b[1] == 0x56 && b[2] == 0x56 && b[3] == 0x52
  }

  /** The magic, version 1, the packet type. */
  ghost predicate StartsAs(b: seq<Byte>, typ: Byte) {
    |b| >= 14 && HasMagic(b) && b[4] == 1 && b[5] == typ
  }

  // ----- building

  lemma MagicBytes()
    ensures Store32(Bswap32(MAGIC)) == [0x43, 0x56, 0x56, 0x52]
  {
  }

  /** Two stored bytes, high byte first, hold a number. */
  ghost predicate Holds16(c: seq<Byte>, x: int) {
    |c| == 2 && (c[0] as int) * 256 + c[1] as int == x
  }

  lemma FieldBytes(x: uint16)
    ensures Holds16(Wire16(x), x)
  {
    WireIsBigEndian(x);
  }

  lemma Concat(a: seq<Byte>, b: seq<Byte>, c: seq<Byte>, d: seq<Byte>, e: seq<Byte>)
    requires |a| == 4 && |b| == 4 && |c| == 2 && |d| == 2 && |e| == 2
    ensures var h := a + b + c + d + e;
            && |h| == 14
            && h[0] == a[0] && h[1] == a[1] && h[2] == a[2] && h[3] == a[3]
            && h[4] == b[0] && h[5] == b[1] && h[6] == b[2] && h[7] == b[3]
            && h[8] == c[0] && h[9] == c[1] && h[10] == d[0] && h[11] == d[1] && h[12] == e[0] && h[13] == e[1]
  {
  }

  /** Every field of a header at its place. */
  ghost predicate HeaderAt(b: seq<Byte>, typ: Byte, flags: Byte, speakerId: int, seqNo: int, payloadLen: int) {
    && StartsAs(b, typ)
    && b[6] == flags && b[7] == 0
    && Be16(b, 8) == speakerId && Be16(b, 10) == seqNo && Be16(b, 12) == payloadLen
  }

  lemma PartsLayout(b: seq<Byte>, typ: Byte, flags: Byte, c: seq<Byte>, d: seq<Byte>, e: seq<Byte>,
                    speakerId: int, seqNo: int, payloadLen: int)
    requires Holds16(c, speakerId) && Holds16(d, seqNo) && Holds16(e, payloadLen)
    requires b == [0x43, 0x56, 0x56, 0x52] + [1, typ, flags, 0] + c + d + e
    ensures HeaderAt(b, typ, flags, speakerId, seqNo, payloadLen)
  {
    Concat([0x43, 0x56, 0x56, 0x52], [1, typ, flags, 0], c, d, e);
  }

  lemma HeaderParts(typ: Byte, speakerId: uint16, seqNo: uint16, payloadLen: uint16, flags: Byte)
    ensures HeaderBytes(HdrInit(typ, speakerId, seqNo, payloadLen, flags)) ==
            [0x43, 0x56, 0x56, 0x52] + [1, typ, flags, 0] + Wire16(speakerId) + Wire16(seqNo) + Wire16(payloadLen)
  {
    MagicBytes();
  }

  lemma HeaderLayout(typ: Byte, speakerId: uint16, seqNo: uint16, payloadLen: uint16, flags: Byte)
    ensures HeaderAt(HeaderBytes(HdrInit(typ, speakerId, seqNo, payloadLen, flags)),
                     typ, flags, speakerId, seqNo, payloadLen)
  {
    HeaderParts(typ, speakerId, seqNo, payloadLen, flags);
    FieldBytes(speakerId);
    FieldBytes(seqNo);
    FieldBytes(payloadLen);
    PartsLayout(HeaderBytes(HdrInit(typ, speakerId, seqNo, payloadLen, flags)), typ, flags,
                Wire16(speakerId), Wire16(seqNo), Wire16(payloadLen), speakerId, seqNo, payloadLen);
  }

  lemma HeaderInFront(head: seq<Byte>, rest: seq<Byte>, typ: Byte, flags: Byte, speakerId: int, seqNo: int, len: int)
    requires |head| == 14 && HeaderAt(head, typ, flags, speakerId, seqNo, len)
    ensures HeaderAt(head + rest, typ, flags, speakerId, seqNo, len)
    ensures (head + rest)[14..] == rest
  {
  }

  /** A voice packet: the header with its type 2, then the payload. */
  lemma VoiceLayout(v: Voice)
    requires |v.payload| < TWO16
    ensures var b := VoicePacket(v);
            && HeaderAt(b, 2, v.flags, v.speakerId, v.seqNo, |v.payload|)
            && b[14..] == v.payload
  {
    HeaderLayout(2, v.speakerId, v.seqNo, |v.payload|, v.flags);
    var head := HeaderBytes(HdrInit(2, v.speakerId, v.seqNo, |v.payload|, v.flags));
    HeaderInFront(head, v.payload, 2, v.flags, v.speakerId, v.seqNo, |v.payload|);
  }

  /** The session id, high byte first. */
  function SessionBytes(y: bv64): seq<Byte> {
    [(y >> 56) as Byte, ((y >> 48) & 0xFF) as Byte, ((y >> 40) & 0xFF) as Byte, ((y >> 32) & 0xFF) as Byte,
     ((y >> 24) & 0xFF) as Byte, ((y >> 16) & 0xFF) as Byte, ((y >> 8) & 0xFF) as Byte, (y & 0xFF) as Byte]
  }

  /** A join packet: the header with its type 1, then session, player and two zero bytes. */
  lemma JoinLayout(j: Join)
    ensures var b := JoinPacket(j);
            && |b| == 26
            && HeaderAt(b, 1, 0, 0, 0, 12)
            && b[14..22] == SessionBytes(j.sessionId)
            && Be16(b, 22) == j.playerId
            && b[24..] == [0, 0]
  {
    HeaderLayout(1, 0, 0, 12, 0);
    FieldBytes(j.playerId);
    FieldBytes(0);
    JoinPacketIs(j);
    JoinParts(HeaderBytes(HdrInit(1, 0, 0, 12, 0)), SessionBytes(j.sessionId), Wire16(j.playerId), Wire16(0),
              j.playerId);
  }

  lemma JoinPacketIs(j: Join)
    ensures JoinPacket(j) ==
            HeaderBytes(HdrInit(1, 0, 0, 12, 0)) + SessionBytes(j.sessionId) + Wire16(j.playerId) + Wire16(0)
  {
    SessionIdIsBigEndian(j.sessionId);
  }

  lemma JoinParts(head: seq<Byte>, s: seq<Byte>, p: seq<Byte>, r: seq<Byte>, player: int)
    requires |head| == 14 && HeaderAt(head, 1, 0, 0, 0, 12)
    requires |s| == 8 && Holds16(p, player) && Holds16(r, 0)
    ensures var b := head + s + p + r;
            && |b| == 26 && HeaderAt(b, 1, 0, 0, 0, 12)
            && b[14..22] == s && Be16(b, 22) == player && b[24..] == [0, 0]
  {
    var b := head + s + p + r;
    HeaderInFront(head, s + p + r, 1, 0, 0, 0, 12);
    assert b == head + (s + p + r);
    assert b[22] == p[0] && b[23] == p[1];
    assert b[24..] == r;
    assert r[0] == 0 && r[1] == 0;
  }

  // ----- reading

  lemma ReadField(b0: Byte, b1: Byte)
    ensures Bswap16(Load16([b0, b1])) as int == (b0 as int) * 256 + b1 as int
  {
    var w := Bswap16(Load16([b0, b1]));
    SwapsAreInvolutions(Load16([b0, b1]), 0, 0);
    Bytes16(b0, b1);
    SwappedValue(w, [b0, b1]);
  }

  lemma FieldOf(b: seq<Byte>, at: nat)
    requires at + 2 <= |b|
    ensures Bswap16(Load16(b[at..at + 2])) as int == Be16(b, at)
  {
    assert b[at..at + 2] == [b[at], b[at + 1]];
    ReadField(b[at], b[at + 1]);
  }

  lemma ReadMagic(b: seq<Byte>)
    requires |b| >= 4
    ensures Bswap32(Load32(b[0..4])) == MAGIC <==> HasMagic(b)
  {
    var four := [b[0], b[1], b[2], b[3]];
    assert b[0..4] == four;
    MagicBytes();
    Bytes32(b[0], b[1], b[2], b[3]);
    SwapsAreInvolutions(0, Load32(four), 0);
    SwapsAreInvolutions(0, MAGIC, 0);
    if Bswap32(Load32(four)) == MAGIC {
      assert Store32(Load32(four)) == Store32(Bswap32(MAGIC));
    }
    if four == [0x43, 0x56, 0x56, 0x52] {
      Memory32(Bswap32(MAGIC));
    }
  }

  /** What the parser makes of a header whose fields have been read. */
  lemma ChecksOnFields(h: RawHeader, len: nat, magic: bool, speakerId: int, seqNo: int, payloadLen: int)
    requires magic == (Bswap32(h.magic) == MAGIC)
    requires Bswap16(h.speakerId) as int == speakerId && Bswap16(h.seqNo) as int == seqNo
    requires Bswap16(h.payloadLen) as int == payloadLen
    ensures CheckHeader(h, len) == Checked(magic, h.version, h.typ, h.flags, speakerId, seqNo, payloadLen, len)
  {
  }

  /** The checks in their order. */
  function Checked(magic: bool, version: Byte, typ: Byte, flags: Byte, speakerId: uint16, seqNo: uint16,
                   payloadLen: uint16, len: nat): Result<Header> {
    if !magic then Err(-2)
    else if version != 1 then Err(-3)
    else if payloadLen == 0 || len < 14 + payloadLen then Err(-4)
    else Ok(Header(typ, flags, speakerId, seqNo, payloadLen))
  }

  /** The header parser, on the bytes. */
  lemma HeaderIsRead(b: seq<Byte>)
    ensures |b| < 14 ==> ParseHeader(b) == Err(-1)
    ensures |b| >= 14 ==>
              ParseHeader(b) == Checked(HasMagic(b), b[4], b[5], b[6], Be16(b, 8), Be16(b, 10), Be16(b, 12), |b|)
  {
    if |b| >= 14 {
      MagicIsRead(b);
      SpeakerIsRead(b);
      SeqNoIsRead(b);
      LengthIsRead(b);
      ChecksOnFields(HeaderFrom(b), |b|, HasMagic(b), Be16(b, 8), Be16(b, 10), Be16(b, 12));
    }
  }

  lemma MagicIsRead(b: seq<Byte>)
    requires |b| >= 14
    ensures HasMagic(b) == (Bswap32(HeaderFrom(b).magic) == MAGIC)
  {
    ReadMagic(b);
  }

  lemma SpeakerIsRead(b: seq<Byte>)
    requires |b| >= 14
    ensures Bswap16(HeaderFrom(b).speakerId) as int == Be16(b, 8)
  {
    FieldOf(b, 8);
  }

  lemma SeqNoIsRead(b: seq<Byte>)
    requires |b| >= 14
    ensures Bswap16(HeaderFrom(b).seqNo) as int == Be16(b, 10)
  {
    FieldOf(b, 10);
  }

  lemma LengthIsRead(b: seq<Byte>)
    requires |b| >= 14
    ensures Bswap16(HeaderFrom(b).payloadLen) as int == Be16(b, 12)
  {
    FieldOf(b, 12);
  }

  /** The voice parser: a voice packet of at least one payload byte that is all there. */
  lemma VoiceIsRead(b: seq<Byte>, v: Voice)
    ensures ParseVoice(b) == Ok(v) <==>
            && StartsAs(b, 2)
            && 1 <= Be16(b, 12) <= |b| - 14
            && v == Voice(Be16(b, 8), Be16(b, 10), b[6], b[14..14 + Be16(b, 12)])
  {
    HeaderIsRead(b);
  }

  lemma SessionIsRead(b: seq<Byte>, y: bv64)
    requires |b| == 8
    ensures Bswap64(Load64(b)) == y <==> b == SessionBytes(y)
  {
    SessionIdIsBigEndian(y);
    if b == SessionBytes(y) {
      Memory64(Bswap64(y));
      SwapsAreInvolutions(0, 0, y);
    } else if Bswap64(Load64(b)) == y {
      SwapsAreInvolutions(0, 0, Load64(b));
      Bytes64(b);
    }
  }

  lemma Bytes64(b: seq<Byte>)
    requires |b| == 8
    ensures Store64(Load64(b)) == b
  {
    Bytes64Of(b[0], b[1], b[2], b[3], b[4], b[5], b[6], b[7]);
    assert b == [b[0], b[1], b[2], b[3], b[4], b[5], b[6], b[7]];
  }

  lemma Bytes64Of(b0: Byte, b1: Byte, b2: Byte, b3: Byte, b4: Byte, b5: Byte, b6: Byte, b7: Byte)
    ensures Store64(Load64([b0, b1, b2, b3, b4, b5, b6, b7])) == [b0, b1, b2, b3, b4, b5, b6, b7]
  {
  }

  /** The join parser: twelve payload bytes, of which the first ten are session and player. */
  lemma JoinIsRead(b: seq<Byte>, j: Join)
    ensures ParseJoin(b) == Ok(j) <==>
            && StartsAs(b, 1)
            && Be16(b, 12) == 12 && |b| >= 26
            && b[14..22] == SessionBytes(j.sessionId) && Be16(b, 22) == j.playerId
  {
    HeaderIsRead(b);
    if |b| >= 26 {
      JoinFields(b, j);
    }
  }

  lemma PlayerIsRead(b: seq<Byte>)
    requires |b| >= 26
    ensures Unwire16(b[22..24]) == Be16(b, 22)
  {
    FieldOf(b, 22);
  }

  lemma SessionPart(b: seq<Byte>, j: Join)
    requires |b| >= 26
    ensures (Bswap64(Load64(b[14..22])) == j.sessionId) == (b[14..22] == SessionBytes(j.sessionId))
  {
    SessionIsRead(b[14..22], j.sessionId);
  }

  lemma JoinFields(b: seq<Byte>, j: Join)
    requires |b| >= 26
    ensures Join(Bswap64(Load64(b[14..22])), Unwire16(b[22..24])) == j <==>
            b[14..22] == SessionBytes(j.sessionId) && Be16(b, 22) == j.playerId
  {
    SessionPart(b, j);
    PlayerIsRead(b);
    SameJoin(Bswap64(Load64(b[14..22])), Unwire16(b[22..24]), j, b[14..22] == SessionBytes(j.sessionId), Be16(b, 22));
  }

  lemma SameJoin(session: bv64, player: uint16, j: Join, same: bool, field: int)
    requires same == (session == j.sessionId) && field == player
    ensures Join(session, player) == j <==> same && field == j.playerId
  {
  }

  /** The bits of the flag byte: radio lowest, four bits of channel, push-to-talk above. */
  lemma FlagBits(isRadio: bool, channel: Byte, ptt: bool, f: Byte)
    ensures var made := FlagsMake(isRadio, channel, ptt);
            && (made & 1 == 1 <==> isRadio)
            && (made >> 1) & 0x0F == channel & 0x0F
            && ((made >> 5) & 1 == 1 <==> ptt)
            && made >> 6 == 0
    ensures FlagsIsRadio(f) <==> f & 1 == 1
    ensures FlagsChannel(f) == (f >> 1) & 0x0F
    ensures FlagsPtt(f) <==> (f >> 5) & 1 == 1
  {
  }
}
