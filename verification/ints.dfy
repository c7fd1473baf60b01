/**
 * The fixed-width C++ integer types the modelled code uses, with the
 * wrap-around of unsigned arithmetic and the two's-complement reinterpretation
 * of an unsigned value as a signed one written out explicitly.
 * Widths follow the LP64 convention (`long` and `unsigned long` are 64 bits).
 */
module Ints {

  const UShortModulus: int := 0x1_0000
  const ULongModulus: int := 0x1_0000_0000_0000_0000
  const LongMin: int := -0x8000_0000_0000_0000
  const LongMax: int := 0x7FFF_FFFF_FFFF_FFFF

  /** `signed char` */
  type SChar = v: int | -128 <= v < 128
  /** `unsigned short` */
  type UShort = v: int | 0 <= v < UShortModulus
  /** `unsigned long` */
  type ULong = v: int | 0 <= v < ULongModulus
  /** `long` */
  type Long = v: int | LongMin <= v <= LongMax
  /** `int` */
  type CInt = v: int | -0x8000_0000 <= v <= 0x7FFF_FFFF

  /** Conversion of an integer value to `unsigned short` (reduction modulo 2^16). */
  function ToUShort(v: int): (r: UShort)
    ensures 0 <= v < UShortModulus ==> r == v
  {
    v % 0x1_0000
  }

  /** Conversion of an integer value to `unsigned long` (reduction modulo 2^64). */
  function ToULong(v: int): (r: ULong)
    ensures 0 <= v < ULongModulus ==> r == v
  {
    v % 0x1_0000_0000_0000_0000
  }

  /** Conversion of an integer value to `long`: the two's-complement reading of its low 64 bits. */
  function ToLong(v: int): (r: Long)
    ensures LongMin <= v <= LongMax ==> r == v
  {
    var u := v % 0x1_0000_0000_0000_0000;
    if u <= 0x7FFF_FFFF_FFFF_FFFF then u else u - 0x1_0000_0000_0000_0000
  }

  /**
   * Adding a non-negative offset to a `long` in `unsigned long` arithmetic and
   * reading the sum back as `long` is plain addition, when the sum fits.
   */
  lemma OffsetInULong(a: Long, k: nat)
    requires a + k <= LongMax
    ensures ToLong(ToULong(a) + k) == a + k
  {
    if a < 0 {
      assert ToULong(a) == a + ULongModulus;
      if a + k < 0 {
        assert (a + ULongModulus + k) % ULongModulus == a + ULongModulus + k;
      } else {
        assert (a + ULongModulus + k) % ULongModulus == a + k;
      }
    }
  }
}
