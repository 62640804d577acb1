/** The two C++ integer types the game mixes: `int` (32-bit, signed) for positions and
    scores, `size_t` (64-bit, unsigned) for the field geometry. */
module CppInt {
  /** size_t arithmetic is taken modulo this (2^64). */
  const SIZE_MOD: int := 0x1_0000_0000_0000_0000
  const INT_MIN: int := -0x8000_0000
  const INT_MAX: int := 0x7fff_ffff

  /** The value an `int` operand takes when a comparison with a `size_t` converts it:
      non-negative values are kept, negative ones wrap to large unsigned values. */
  function AsSize(v: int): (r: nat)
    ensures r < SIZE_MOD
    ensures 0 <= v < SIZE_MOD ==> r == v
    ensures -SIZE_MOD <= v < 0 ==> r == v + SIZE_MOD
  {
    v % SIZE_MOD
  }

  /** v is representable as a C++ `int`. */
  predicate IsInt(v: int) {
    INT_MIN <= v <= INT_MAX
  }
}
