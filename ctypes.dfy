// Machine-level integer helpers shared by every module: the 32-bit
// unsigned arithmetic of the C/C++ sources is written out explicitly.
module CTypes {

  const TWO_32: int := 0x1_0000_0000
  const UINT32_MAX: int := 0xFFFF_FFFF

  /** A value of C's `uint32_t` (also `unsigned int` and `unsigned long` on the 32-bit soft cores). */
  type U32 = x: int | 0 <= x < TWO_32

  /** Reduction modulo 2^32: what storing an unbounded result into a `uint32_t` does. */
  function Wrap32(x: int): (r: U32)
    ensures 0 <= x < TWO_32 ==> r == x
    ensures 0 <= x ==> r <= x
  {
    x % TWO_32
  }

  datatype Option<T> = None | Some(value: T)

  function Min(a: nat, b: nat): nat
  {
    if a < b then a else b
  }

  // Integer division facts shared by the arithmetic modules.

  lemma CeilDiv(x: nat, d: nat)
    requires d > 0
    ensures ((x + d - 1) / d) * d >= x
    ensures ((x + d - 1) / d) * d < x + d
  {
    var q, r := (x + d - 1) / d, (x + d - 1) % d;
    assert x + d - 1 == q * d + r;
  }

  lemma FloorDiv(x: nat, d: nat)
    requires d > 0
    ensures (x / d) * d <= x < (x / d) * d + d
  {
    var q, r := x / d, x % d;
    assert x == q * d + r;
  }

  /** If x < bound / a then a * x + a <= bound: the product of an asserted input cannot wrap. */
  lemma ProductBelow(a: nat, x: nat, bound: nat)
    requires a > 0 && x < bound / a
    ensures a * x + a <= bound
  {
    FloorDiv(bound, a);
    assert x + 1 <= bound / a;
    assert a * (x + 1) <= a * (bound / a) by {
      MulMono(a, x + 1, bound / a);
    }
  }

  /** `x / d` on a 32-bit value: the floor of the quotient, itself a 32-bit value. */
  function DivU32(x: U32, d: nat): (r: U32)
    requires d > 0
    ensures r as int * d <= x < r as int * d + d
  {
    FloorDiv(x, d);
    MulMono(x / d, 1, d);
    x / d
  }

  lemma MulMono(a: nat, x: nat, y: nat)
    requires x <= y
    ensures a * x <= a * y
  {
  }

  /** Integer division by a fixed positive divisor is monotone. */
  lemma DivMono(a: nat, b: nat, d: nat)
    requires d > 0 && a <= b
    ensures a / d <= b / d
  {
    FloorDiv(a, d);
    FloorDiv(b, d);
    assert (a / d) * d < (b / d + 1) * d;
    MulLtCancel(a / d, b / d + 1, d);
  }

  lemma MulLtCancel(x: nat, y: nat, d: nat)
    requires d > 0 && x * d < y * d
    ensures x < y
  {
  }

  /** Dividing by a larger positive number never gives more. */
  lemma DivAntitone(x: nat, d1: nat, d2: nat)
    requires 0 < d1 <= d2
    ensures x / d2 <= x / d1
  {
    FloorDiv(x, d1);
    FloorDiv(x, d2);
    MulMono(x / d2, d1, d2);
    assert (x / d2) * d1 <= x;
    assert (x / d2) * d1 < (x / d1 + 1) * d1;
    MulLtCancel(x / d2, x / d1 + 1, d1);
  }
}
