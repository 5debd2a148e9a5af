/**
 * Fixed-width unsigned integers of the ATtiny2313 firmware: `uint8_t` globals and
 * hardware registers, and `uint32_t` arithmetic, which wraps modulo 2^32.
 */
module Width {

  const TWO_32: int := 0x1_0000_0000

  /** An 8-bit unsigned value (`uint8_t`, the TCNT0 register). */
  type u8 = x: int | 0 <= x < 0x100

  /** A 32-bit unsigned value (`uint32_t`). */
  type u32 = x: int | 0 <= x < 0x1_0000_0000

  /** The value a `uint32_t` holds after being assigned the mathematical integer `x`. */
  function Wrap32(x: int): (r: u32)
    ensures (x - r) % TWO_32 == 0
    ensures 0 <= x < TWO_32 ==> r == x
  {
    x % TWO_32
  }

  /** Wrapping an intermediate sum does not change the wrapped result. */
  lemma WrapAdd(a: int, b: int)
    ensures Wrap32(Wrap32(a) + b) == Wrap32(a + b)
  {
    var q := a / TWO_32;
    assert a == q * TWO_32 + Wrap32(a);
    assert Wrap32(a) + b == (a + b) - q * TWO_32;
    ModMultiple(a + b, -q);
  }

  lemma ModMultiple(x: int, k: int)
    ensures (x + k * TWO_32) % TWO_32 == x % TWO_32
  {
    var q := x / TWO_32;
    var m := x % TWO_32;
    assert x + k * TWO_32 == (q + k) * TWO_32 + m;
  }
}
