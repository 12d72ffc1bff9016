/** C integer conversions under LP64: `unsigned int` and `unsigned long` arithmetic wraps,
    and a conversion to a signed type of the same width keeps the bits. */
module MachineInt {
  const TWO_31 := 0x8000_0000
  const TWO_32 := 0x1_0000_0000
  const TWO_63 := 0x8000_0000_0000_0000
  const TWO_64 := 0x1_0000_0000_0000_0000

  type u32 = x: int | 0 <= x < TWO_32
  type u64 = x: int | 0 <= x < TWO_64

  function Wrap32(x: int): u32 { x % TWO_32 }

  function Wrap64(x: int): u64 { x % TWO_64 }

  /** The value of x converted to `int`. */
  function AsInt(x: int): int {
    var w := Wrap32(x);
    if w < TWO_31 then w else w - TWO_32
  }

  /** The value of x converted to `long`. */
  function AsLong(x: int): int {
    var w := Wrap64(x);
    if w < TWO_63 then w else w - TWO_64
  }

  /** A conversion gives the one value of the type that agrees in the low bits. */
  lemma ConversionsExactly(x: int)
    ensures 0 <= Wrap32(x) < 4_294_967_296 && (Wrap32(x) - x) % 4_294_967_296 == 0
    ensures -2_147_483_648 <= AsInt(x) < 2_147_483_648 && (AsInt(x) - x) % 4_294_967_296 == 0
    ensures 0 <= Wrap64(x) < 18_446_744_073_709_551_616 && (Wrap64(x) - x) % 18_446_744_073_709_551_616 == 0
    ensures -9_223_372_036_854_775_808 <= AsLong(x) < 9_223_372_036_854_775_808
    ensures (AsLong(x) - x) % 18_446_744_073_709_551_616 == 0
  {
    var p, q := x / TWO_32, x / TWO_64;
    assert Wrap32(x) - x == (-p) * TWO_32;
    assert Wrap64(x) - x == (-q) * TWO_64;
    assert Wrap32(x) - TWO_32 - x == (-p - 1) * TWO_32;
    assert Wrap64(x) - TWO_64 - x == (-q - 1) * TWO_64;
  }

  function Sign(x: int): int {
    if x < 0 then -1 else if x > 0 then 1 else 0
  }

  lemma Wrap32Shift(x: int, q: int)
    ensures Wrap32(x + q * TWO_32) == Wrap32(x)
  {
    assert (x + q * TWO_32) % TWO_32 == x % TWO_32;
  }

  lemma Wrap64Shift(x: int, q: int)
    ensures Wrap64(x + q * TWO_64) == Wrap64(x)
  {
    assert (x + q * TWO_64) % TWO_64 == x % TWO_64;
  }

  /** Wrapping early does no harm. */
  lemma Wrap64Sum(x: int, y: int)
    ensures Wrap64(Wrap64(x) + y) == Wrap64(x + y)
  {
    Wrap64Shift(Wrap64(x) + y, x / TWO_64);
    assert Wrap64(x) + y + x / TWO_64 * TWO_64 == x + y;
  }

  lemma Wrap64Difference(x: int, y: int)
    ensures Wrap64(x - Wrap64(y)) == Wrap64(x - y)
  {
    Wrap64Shift(x - y, y / TWO_64);
    assert x - y + y / TWO_64 * TWO_64 == x - Wrap64(y);
  }

  lemma Wrap32Sum(x: int, y: int)
    ensures Wrap32(Wrap32(x) + y) == Wrap32(x + y)
  {
    Wrap32Shift(Wrap32(x) + y, x / TWO_32);
    assert Wrap32(x) + y + x / TWO_32 * TWO_32 == x + y;
  }
}
