/** The fixed-width arithmetic the C++ code relies on. */
module Machine {

  const INT32_MAX: nat := 0x7FFF_FFFF
  const TWO_32: nat := 0x1_0000_0000
  const TWO_63: int := 0x8000_0000_0000_0000
  const TWO_64: nat := 0x1_0000_0000_0000_0000

  /** `static_cast<int>` of a `size_t`. */
  function ToInt32(n: nat): int {
    var m := n % TWO_32;
    if m <= INT32_MAX then m else m - TWO_32
  }

  /** Unsigned 64-bit addition and subtraction wrap around. */
  function Add64(a: nat, b: nat): (r: nat)
    ensures r < TWO_64
    ensures a + b < TWO_64 ==> r == a + b
    ensures a < TWO_64 && b < TWO_64 <= a + b ==> r == a + b - TWO_64
  {
    (a + b) % TWO_64
  }

  function Sub64(a: nat, b: nat): (r: nat)
    ensures r < TWO_64
    ensures b <= a < TWO_64 ==> r == a - b
    ensures a < b < TWO_64 ==> r == a - b + TWO_64
  {
    (a - b) % TWO_64
  }

  /** C++ `/` and `%` truncate toward zero (section 5.6 of ISO/IEC 14882:2011). */
  function TruncDiv(a: int, b: nat): int
    requires b > 0
  {
    if a >= 0 then a / b else -((-a) / b)
  }

  function TruncMod(a: int, b: nat): int
    requires b > 0
  {
    a - TruncDiv(a, b) * b
  }
}
