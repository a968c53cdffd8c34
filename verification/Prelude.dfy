/** Fixed-width integers, little-endian codecs and small result types shared by every module. */
module Prelude {

  newtype Byte = x: int | 0 <= x < 0x100
  type U16 = x: int | 0 <= x < 0x1_0000
  type U32 = x: int | 0 <= x < 0x1_0000_0000
  type I32 = x: int | -0x8000_0000 <= x < 0x8000_0000

  const U32_MAX: int := 0xFFFF_FFFF
  const I32_MIN: int := -0x8000_0000
  const I32_MAX: int := 0x7FFF_FFFF

  datatype Option<+T> = None | Some(value: T)

  datatype Result<+T, +E> = Ok(value: T) | Err(error: E)

  /** Two's-complement reinterpretation of a signed word (`value as u32`). */
  function ToUnsigned(v: I32): (w: U32)
  {
    if v < 0 then v + 0x1_0000_0000 else v
  }

  /** Two's-complement reinterpretation of an unsigned word (`word as i32`). */
  function ToSigned(w: U32): (v: I32)
  {
    if w < 0x8000_0000 then w else w - 0x1_0000_0000
  }

  function LittleEndian16(v: U16): (bytes: seq<Byte>)
    ensures |bytes| == 2
  {
    [(v % 0x100) as Byte, (v / 0x100) as Byte]
  }

  function LittleEndian32(v: U32): (bytes: seq<Byte>)
    ensures |bytes| == 4
  {
    LittleEndian16(v % 0x1_0000) + LittleEndian16(v / 0x1_0000)
  }

  function FromLittleEndian16(bytes: seq<Byte>): (v: U16)
    requires |bytes| == 2
  {
    bytes[0] as int + 0x100 * (bytes[1] as int)
  }

  function FromLittleEndian32(bytes: seq<Byte>): (v: U32)
    requires |bytes| == 4
  {
    (FromLittleEndian16(bytes[..2]) as int) + 0x1_0000 * (FromLittleEndian16(bytes[2..]) as int)
  }

  lemma {:induction false} LittleEndian16RoundTrip(v: U16)
    ensures FromLittleEndian16(LittleEndian16(v)) == v
  {}

  lemma {:induction false} LittleEndian32RoundTrip(v: U32)
    ensures FromLittleEndian32(LittleEndian32(v)) == v
  {
    var bytes := LittleEndian32(v);
    assert bytes[..2] == LittleEndian16(v % 0x1_0000) && bytes[2..] == LittleEndian16(v / 0x1_0000);
    LittleEndian16RoundTrip(v % 0x1_0000);
    LittleEndian16RoundTrip(v / 0x1_0000);
  }

  lemma {:induction false} LittleEndian16Canonical(bytes: seq<Byte>)
    requires |bytes| == 2
    ensures LittleEndian16(FromLittleEndian16(bytes)) == bytes
  {}

  lemma {:induction false} LittleEndian32Canonical(bytes: seq<Byte>)
    requires |bytes| == 4
    ensures LittleEndian32(FromLittleEndian32(bytes)) == bytes
  {
    LittleEndian16Canonical(bytes[..2]);
    LittleEndian16Canonical(bytes[2..]);
    hide LittleEndian16, FromLittleEndian16;
    var low: int, high: int := FromLittleEndian16(bytes[..2]), FromLittleEndian16(bytes[2..]);
    assert (low + 0x1_0000 * high) % 0x1_0000 == low && (low + 0x1_0000 * high) / 0x1_0000 == high;
    assert bytes == bytes[..2] + bytes[2..];
  }
}
