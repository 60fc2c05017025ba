/** Go's fixed-width integers on a 64-bit platform, with their conversions
    and wrap-around written out explicitly. */
module GoInts {

  const Two63: int := 0x8000_0000_0000_0000
  const Two64: int := 0x1_0000_0000_0000_0000

  /** Go's `uint64`. */
  type Uint64 = x: int | 0 <= x < 0x1_0000_0000_0000_0000

  /** Go's `int64`, and Go's `int` on a 64-bit platform. */
  type Int64 = x: int | -0x8000_0000_0000_0000 <= x < 0x8000_0000_0000_0000

  /** The conversion `uint64(x)`: the same 64 bits read as unsigned, so a
      negative value lands 2^64 higher. */
  function ToUint64(x: Int64): (u: Uint64)
    ensures x >= 0 ==> u == x
    ensures x < 0 ==> u == x + Two64
  {
    x % Two64
  }

  /** The conversion `int(u)`: the same 64 bits read as signed, so a value
      of 2^63 or more turns negative. It undoes `ToUint64`. */
  function ToInt(u: Uint64): (x: Int64)
    ensures ToUint64(x) == u
    ensures u < Two63 <==> x >= 0
  {
    if u < Two63 then u else u - Two64
  }

  /** `a + b` on `uint64`: the sum wraps around modulo 2^64. */
  function AddUint64(a: Uint64, b: Uint64): (s: Uint64)
    ensures a + b < Two64 ==> s == a + b
    ensures a + b >= Two64 ==> s == a + b - Two64
  {
    (a + b) % Two64
  }
}
