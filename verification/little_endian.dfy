/** Explicit little-endian field extraction from a byte sequence.
    The player reads its header fields through pointer casts on a
    little-endian host (`*(int16_t*)(header + 22)` and the like); this
    module states the same reads as arithmetic on bytes, together with the
    encoders that invert them. */
module LittleEndian {

  /** One octet of the file, as the integer it holds. */
  newtype byte = x: int | 0 <= x < 0x100

  const TWO_TO_THE_8: nat := 0x100
  const TWO_TO_THE_16: nat := 0x1_0000
  const TWO_TO_THE_32: nat := 0x1_0000_0000

  /** The unsigned 16-bit value stored little-endian at `b[off..off+2]`. */
  function U16At(b: seq<byte>, off: nat): (v: nat)
    requires off + 2 <= |b|
    ensures v < TWO_TO_THE_16
  {
    b[off] as nat + TWO_TO_THE_8 * (b[off + 1] as nat)
  }

  /** The unsigned 32-bit value stored little-endian at `b[off..off+4]`. */
  function U32At(b: seq<byte>, off: nat): (v: nat)
    requires off + 4 <= |b|
    ensures v < TWO_TO_THE_32
  {
    U16At(b, off) + TWO_TO_THE_16 * U16At(b, off + 2)
  }

  /** Two's-complement reading of a 16-bit pattern, as an `int16_t` cast does. */
  function Signed16(u: nat): (s: int)
    requires u < TWO_TO_THE_16
    ensures -0x8000 <= s < 0x8000
    ensures (s - u) % TWO_TO_THE_16 == 0
  {
    if u < 0x8000 then u else u - TWO_TO_THE_16
  }

  /** Two's-complement reading of a 32-bit pattern, as an `int32_t` cast does. */
  function Signed32(u: nat): (s: int)
    requires u < TWO_TO_THE_32
    ensures -0x8000_0000 <= s < 0x8000_0000
    ensures (s - u) % TWO_TO_THE_32 == 0
  {
    if u < 0x8000_0000 then u else u - TWO_TO_THE_32
  }

  /** The 16-bit pattern that stores the signed value `s`; inverse of Signed16. */
  function Unsigned16(s: int): (u: nat)
    requires -0x8000 <= s < 0x8000
    ensures u < TWO_TO_THE_16
    ensures Signed16(u) == s
  {
    if s < 0 then s + TWO_TO_THE_16 else s
  }

  /** The 32-bit pattern that stores the signed value `s`; inverse of Signed32. */
  function Unsigned32(s: int): (u: nat)
    requires -0x8000_0000 <= s < 0x8000_0000
    ensures u < TWO_TO_THE_32
    ensures Signed32(u) == s
  {
    if s < 0 then s + TWO_TO_THE_32 else s
  }

  /** Little-endian encoding of a 16-bit value; U16At reads it back. */
  function LE16(u: nat): (b: seq<byte>)
    requires u < TWO_TO_THE_16
    ensures |b| == 2
    ensures U16At(b, 0) == u
  {
    var lo := u % TWO_TO_THE_8;
    var hi := u / TWO_TO_THE_8;
    [lo as byte, hi as byte]
  }

  /** Little-endian encoding of a 32-bit value; U32At reads it back. */
  function LE32(u: nat): (b: seq<byte>)
    requires u < TWO_TO_THE_32
    ensures |b| == 4
    ensures U32At(b, 0) == u
  {
    var lo := LE16(u % TWO_TO_THE_16);
    var hi := LE16(u / TWO_TO_THE_16);
    assert U16At(lo + hi, 0) == U16At(lo, 0);
    assert U16At(lo + hi, 2) == U16At(hi, 0);
    lo + hi
  }

  /** A little-endian read only depends on the bytes it covers. */
  lemma U16AtSlice(b: seq<byte>, off: nat, field: seq<byte>)
    requires off + 2 <= |b| && b[off..off + 2] == field
    ensures |field| == 2 && U16At(b, off) == U16At(field, 0)
  {
    assert b[off] == field[0] && b[off + 1] == field[1];
  }

  /** A little-endian read only depends on the bytes it covers. */
  lemma U32AtSlice(b: seq<byte>, off: nat, field: seq<byte>)
    requires off + 4 <= |b| && b[off..off + 4] == field
    ensures |field| == 4 && U32At(b, off) == U32At(field, 0)
  {
    U16AtSlice(b, off, field[0..2]);
    U16AtSlice(b, off + 2, field[2..4]);
    U16AtSlice(field, 0, field[0..2]);
    U16AtSlice(field, 2, field[2..4]);
  }
}
