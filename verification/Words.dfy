/** Machine words of the C and C# sources, written out as ranges of `int`, and the few
    modular facts the ring and sequence-number code rests on. Bytes and the words that are
    byte-swapped are bit-vectors; `Word16RoundTrip` is the bridge between the two views. */
module Words {

  datatype Option<+T> = None | Some(value: T)

  type Byte = bv8

  const TWO16 := 0x1_0000
  const TWO32 := 0x1_0000_0000

  type uint16 = x: int | 0 <= x < 0x1_0000
  type uint32 = x: int | 0 <= x < 0x1_0000_0000
  type int16 = x: int | -0x8000 <= x < 0x8000
  type int32 = x: int | -0x8000_0000 <= x < 0x8000_0000

  /** `x + 1` in 16-bit arithmetic. */
  function Next16(x: uint16): uint16 {
    if x == TWO16 - 1 then 0 else x + 1
  }

  /** `a - b` in 32-bit arithmetic. */
  function Sub32(a: uint32, b: uint32): uint32 {
    if a >= b then a - b else a - b + TWO32
  }

  /** `a + b` in signed 32-bit arithmetic. */
  function Sum32(a: int32, b: int32): int32 {
    if a + b >= 0x8000_0000 then a + b - TWO32 else if a + b < -0x8000_0000 then a + b + TWO32 else a + b
  }

  /** An unsigned 32-bit word read as a signed one. */
  function AsInt32(x: uint32): int32 {
    if x < 0x8000_0000 then x else x - TWO32
  }

  /** Both differ from the exact value by a multiple of 2^32. */
  lemma WordsWrap(a: int32, b: int32, x: uint32)
    ensures (Sum32(a, b) - (a + b)) % TWO32 == 0
    ensures (AsInt32(x) - x) % TWO32 == 0
  {
  }

  function Min(a: int, b: int): int { if a <= b then a else b }

  /** 128, 256 and 16 divide both word sizes, so a slot index may be taken before or after wrapping. */
  lemma SlotSurvivesWrap(u: int)
    ensures (u % TWO16) % 128 == u % 128
    ensures (u % TWO32) % 16 == u % 16
    ensures (u % TWO32) % 256 == u % 256
  {
    Remainder128(u, 512 * (u / TWO16) + (u % TWO16) / 128, (u % TWO16) % 128);
    Remainder16(u, 0x1000_0000 * (u / TWO32) + (u % TWO32) / 16, (u % TWO32) % 16);
    Remainder256(u, 0x100_0000 * (u / TWO32) + (u % TWO32) / 256, (u % TWO32) % 256);
  }

  lemma Remainder128(u: int, q: int, r: int)
    requires u == 128 * q + r && 0 <= r < 128
    ensures u % 128 == r
  {
  }

  lemma Remainder16(u: int, q: int, r: int)
    requires u == 16 * q + r && 0 <= r < 16
    ensures u % 16 == r
  {
  }

  lemma Remainder256(u: int, q: int, r: int)
    requires u == 256 * q + r && 0 <= r < 256
    ensures u % 256 == r
  {
  }

  /** Two numbers closer than 128 in one slot are the same number. */
  lemma SameSlotNear(u: int, v: int)
    requires u % 128 == v % 128 && -128 < u - v < 128
    ensures u == v
  {
  }

  lemma SameWordNear(u: int, v: int)
    requires u % TWO16 == v % TWO16 && -TWO16 < u - v < TWO16
    ensures u == v
  {
  }

  // ----- conversions between numbers and bit-vectors

  // A number is rebuilt from its base-16 digits, so the solver only meets small vectors.

  lemma DigitRoundTrip(n: int)
    requires 0 <= n < 16
    ensures (n as bv4) as int == n
  {
    if n < 8 {
      assert n == 0 || n == 1 || n == 2 || n == 3 || n == 4 || n == 5 || n == 6 || n == 7;
    } else {
      assert n == 8 || n == 9 || n == 10 || n == 11 || n == 12 || n == 13 || n == 14 || n == 15;
    }
  }

  lemma JoinDigits(h: bv4, l: bv4)
    ensures (((h as bv8) << 4) | (l as bv8)) as int == (h as int) * 16 + l as int
  {
  }

  lemma JoinBytes(h: bv8, l: bv8)
    ensures (((h as bv16) << 8) | (l as bv16)) as int == (h as int) * 256 + l as int
  {
  }

  lemma ByteInjective(x: bv8)
    ensures (x as int) as bv8 == x
  {
  }

  lemma Word16Injective(x: bv16)
    ensures (x as int) as bv16 == x
  {
  }

  lemma ByteRoundTrip(n: int)
    requires 0 <= n < 256
    ensures (n as bv8) as int == n
  {
    var h, l := (n / 16) as bv4, (n % 16) as bv4;
    DigitRoundTrip(n / 16);
    DigitRoundTrip(n % 16);
    JoinDigits(h, l);
    ByteInjective(((h as bv8) << 4) | (l as bv8));
  }

  lemma Word16Of(n: int) returns (x: bv16)
    requires 0 <= n < TWO16
    ensures x as int == n
  {
    ByteRoundTrip(n / 256);
    ByteRoundTrip(n % 256);
    var h, l := (n / 256) as bv8, (n % 256) as bv8;
    JoinBytes(h, l);
    x := ((h as bv16) << 8) | (l as bv16);
  }

  /** A 16-bit number survives the trip through the bit-vector that is byte-swapped. */
  lemma Word16RoundTrip(n: int)
    requires 0 <= n < TWO16
    ensures (n as bv16) as int == n
  {
    var x := Word16Of(n);
    Word16Injective(x);
  }
}
