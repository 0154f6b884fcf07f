/** The fixed-width Java integer types the core uses. */
module JavaTypes {

  /** Java `byte`: signed, two's complement, 8 bits. */
  newtype int8 = x: int | -0x80 <= x < 0x80

  /** Java `int`. */
  newtype int32 = x: int | -0x8000_0000 <= x < 0x8000_0000

  /** Java `long`. */
  newtype int64 = x: int | -0x8000_0000_0000_0000 <= x < 0x8000_0000_0000_0000

  /** The largest Java `int`; also the largest length a Java array can have. */
  const MaxInt32: int := 0x7FFF_FFFF
}
