/** The packet format: flag packing, byte swaps, the packed 14-byte header, and the builders
    and parsers of JOIN and VOICE packets. The host is little-endian: a header field is
    swapped and then stored low byte first. */
module WireFormat {
  import opened Words

  const MAGIC: bv32 := 0x43565652
  const PROTO_VER: Byte := 1
  const PKT_JOIN: Byte := 1
  const PKT_VOICE: Byte := 2
  const HEADER_SIZE := 14
  const JOIN_SIZE := 12

  // ----- flags

  const FLAG_RADIO: Byte := 0x01
  const FLAG_CH_MASK: Byte := 0x1E
  const FLAG_PTT: Byte := 0x20

  function FlagsMake(isRadio: bool, channel: Byte, ptt: bool): Byte {
    (if isRadio then FLAG_RADIO else 0) | ((channel & 0x0F) << 1) | (if ptt then FLAG_PTT else 0)
  }

  predicate FlagsIsRadio(f: Byte) { f & FLAG_RADIO != 0 }

  function FlagsChannel(f: Byte): Byte { (f & FLAG_CH_MASK) >> 1 }

  predicate FlagsPtt(f: Byte) { f & FLAG_PTT != 0 }

  /** Packing keeps the three fields apart and uses none of the reserved bits; every byte
      without reserved bits is a packing of its own fields. */
  lemma FlagsRoundTrip(isRadio: bool, channel: Byte, ptt: bool, f: Byte)
    ensures var made := FlagsMake(isRadio, channel, ptt);
            && FlagsIsRadio(made) == isRadio
            && FlagsChannel(made) == channel & 0x0F
            && FlagsPtt(made) == ptt
            && made & 0xC0 == 0
    ensures f & 0xC0 == 0 <==> FlagsMake(FlagsIsRadio(f), FlagsChannel(f), FlagsPtt(f)) == f
  {
  }

  // ----- byte swaps

  function Bswap16(x: bv16): bv16 {
    (x << 8) | (x >> 8)
  }

  function Bswap32(x: bv32): bv32 {
    ((x & 0x000000FF) << 24) |
    ((x & 0x0000FF00) << 8) |
    ((x & 0x00FF0000) >> 8) |
    ((x & 0xFF000000) >> 24)
  }

  function Bswap64(x: bv64): bv64 {
    ((x & 0x00000000000000FF) << 56) |
    ((x & 0x000000000000FF00) << 40) |
    ((x & 0x0000000000FF0000) << 24) |
    ((x & 0x00000000FF000000) << 8) |
    ((x & 0x000000FF00000000) >> 8) |
    ((x & 0x0000FF0000000000) >> 24) |
    ((x & 0x00FF000000000000) >> 40) |
    ((x & 0xFF00000000000000) >> 56)
  }

  lemma SwapsAreInvolutions(x: bv16, y: bv32, z: bv64)
    ensures Bswap16(Bswap16(x)) == x
    ensures Bswap32(Bswap32(y)) == y
    ensures Bswap64(Bswap64(z)) == z
  {
  }

  // ----- memory of a little-endian host

  function Store16(x: bv16): seq<Byte> {
    [(x & 0xFF) as Byte, (x >> 8) as Byte]
  }

  function Store32(x: bv32): seq<Byte> {
    [(x & 0xFF) as Byte, ((x >> 8) & 0xFF) as Byte, ((x >> 16) & 0xFF) as Byte, (x >> 24) as Byte]
  }

  function Store64(x: bv64): seq<Byte> {
    [(x & 0xFF) as Byte, ((x >> 8) & 0xFF) as Byte, ((x >> 16) & 0xFF) as Byte, ((x >> 24) & 0xFF) as Byte,
     ((x >> 32) & 0xFF) as Byte, ((x >> 40) & 0xFF) as Byte, ((x >> 48) & 0xFF) as Byte, (x >> 56) as Byte]
  }

  function Load16(b: seq<Byte>): bv16
    requires |b| == 2
  {
    (b[0] as bv16) | ((b[1] as bv16) << 8)
  }

  function Load32(b: seq<Byte>): bv32
    requires |b| == 4
  {
    (b[0] as bv32) | ((b[1] as bv32) << 8) | ((b[2] as bv32) << 16) | ((b[3] as bv32) << 24)
  }

  function Load64(b: seq<Byte>): bv64
    requires |b| == 8
  {
    (b[0] as bv64) | ((b[1] as bv64) << 8) | ((b[2] as bv64) << 16) | ((b[3] as bv64) << 24) |
    ((b[4] as bv64) << 32) | ((b[5] as bv64) << 40) | ((b[6] as bv64) << 48) | ((b[7] as bv64) << 56)
  }

  lemma Memory16(x: bv16)
    ensures Load16(Store16(x)) == x
  {
  }

  lemma Bytes16(b0: Byte, b1: Byte)
    ensures Store16(Load16([b0, b1])) == [b0, b1]
  {
  }

  lemma Memory32(x: bv32)
    ensures Load32(Store32(x)) == x
  {
  }

  lemma Bytes32(b0: Byte, b1: Byte, b2: Byte, b3: Byte)
    ensures Store32(Load32([b0, b1, b2, b3])) == [b0, b1, b2, b3]
  {
  }

  lemma Memory64(x: bv64)
    ensures Load64(Store64(x)) == x
  {
  }

  /** A 16-bit field as it travels: swapped, then stored; loaded, then swapped back. */
  function Wire16(x: uint16): seq<Byte> {
    Store16(Bswap16(x as bv16))
  }

  function Unwire16(b: seq<Byte>): uint16
    requires |b| == 2
  {
    Bswap16(Load16(b)) as int
  }

  lemma Wire16RoundTrip(x: uint16)
    ensures |Wire16(x)| == 2 && Unwire16(Wire16(x)) == x
  {
    var w := Word16Of(x);
    Word16Injective(w);
    Memory16(Bswap16(w));
    SwapsAreInvolutions(w, 0, 0);
  }

  lemma SwappedBytes(w: bv16) returns (h: Byte, l: Byte)
    ensures Store16(Bswap16(w)) == [h, l]
    ensures ((h as bv16) << 8) | (l as bv16) == w
  {
    h, l := (w >> 8) as Byte, (w & 0xFF) as Byte;
  }

  lemma SwappedValue(w: bv16, stored: seq<Byte>)
    requires stored == Store16(Bswap16(w))
    ensures |stored| == 2 && (stored[0] as int) * 256 + stored[1] as int == w as int
  {
    var h, l := SwappedBytes(w);
    assert stored[0] == h && stored[1] == l;
    JoinBytes(h, l);
  }

  /** On the wire the high byte comes first: storing the swapped value low byte first is
      big-endian order. */
  lemma WireIsBigEndian(x: uint16)
    ensures (Wire16(x)[0] as int) * 256 + Wire16(x)[1] as int == x
  {
    var w := Word16Of(x);
    Word16Injective(w);
    SwappedValue(w, Wire16(x));
  }

  /** The wider fields too: the magic, */
  lemma MagicIsBigEndian(x: bv32)
    ensures Store32(Bswap32(x)) ==
            [(x >> 24) as Byte, ((x >> 16) & 0xFF) as Byte, ((x >> 8) & 0xFF) as Byte, (x & 0xFF) as Byte]
  {
  }

  lemma SwappedBytes64(y: bv64)
    ensures Bswap64(y) & 0xFF == y >> 56
    ensures (Bswap64(y) >> 8) & 0xFF == (y >> 48) & 0xFF
    ensures (Bswap64(y) >> 16) & 0xFF == (y >> 40) & 0xFF
    ensures (Bswap64(y) >> 24) & 0xFF == (y >> 32) & 0xFF
    ensures (Bswap64(y) >> 32) & 0xFF == (y >> 24) & 0xFF
    ensures (Bswap64(y) >> 40) & 0xFF == (y >> 16) & 0xFF
    ensures (Bswap64(y) >> 48) & 0xFF == (y >> 8) & 0xFF
    ensures Bswap64(y) >> 56 == y & 0xFF
  {
  }

  /** and the session id. */
  lemma SessionIdIsBigEndian(y: bv64)
    ensures Store64(Bswap64(y)) ==
            [(y >> 56) as Byte, ((y >> 48) & 0xFF) as Byte, ((y >> 40) & 0xFF) as Byte, ((y >> 32) & 0xFF) as Byte,
             ((y >> 24) & 0xFF) as Byte, ((y >> 16) & 0xFF) as Byte, ((y >> 8) & 0xFF) as Byte, (y & 0xFF) as Byte]
  {
    SwappedBytes64(y);
    SameBytes64(Bswap64(y), y);
  }

  lemma SameBytes64(w: bv64, y: bv64)
    requires w & 0xFF == y >> 56 && (w >> 8) & 0xFF == (y >> 48) & 0xFF
    requires (w >> 16) & 0xFF == (y >> 40) & 0xFF && (w >> 24) & 0xFF == (y >> 32) & 0xFF
    requires (w >> 32) & 0xFF == (y >> 24) & 0xFF && (w >> 40) & 0xFF == (y >> 16) & 0xFF
    requires (w >> 48) & 0xFF == (y >> 8) & 0xFF && w >> 56 == y & 0xFF
    ensures Store64(w) ==
            [(y >> 56) as Byte, ((y >> 48) & 0xFF) as Byte, ((y >> 40) & 0xFF) as Byte, ((y >> 32) & 0xFF) as Byte,
             ((y >> 24) & 0xFF) as Byte, ((y >> 16) & 0xFF) as Byte, ((y >> 8) & 0xFF) as Byte, (y & 0xFF) as Byte]
  {
  }
}
