/** Java's 32-bit `int` and its wrap-around subtraction. */
module JavaInt {

  const MinInt: int := -0x8000_0000
  const MaxInt: int := 0x7fff_ffff

  newtype int32 = x: int | -0x8000_0000 <= x < 0x8000_0000

  /** Java's `a - b` on two `int`s: the exact difference, wrapped into 32 bits. */
  function Sub(a: int32, b: int32): (r: int32)
    ensures MinInt <= a as int - b as int <= MaxInt ==> r as int == a as int - b as int
    ensures (r as int - (a as int - b as int)) % 0x1_0000_0000 == 0
  {
    var d := (a as int - b as int) % 0x1_0000_0000;
    if d < 0x8000_0000 then d as int32 else (d - 0x1_0000_0000) as int32
  }
}
