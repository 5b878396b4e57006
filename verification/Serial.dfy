/** Modulo-2^32 sequence numbers and their unwrapped positions.

    The stack compares sequence numbers with `(int32_t)(a - b) < 0`.  The
    functions here keep that arithmetic; `SerialOrder` is the one fact that
    lets every other module reason about unbounded stream positions. */
module Serial {

  const WRAP := 0x1_0000_0000
  const HALF := 0x8000_0000

  type u32 = x: int | 0 <= x < 0x1_0000_0000
  type byte = x: int | 0 <= x < 256

  /** The 32-bit sequence number of an unbounded position. */
  function Wrap(x: int): u32 { x % WRAP }

  function Add32(a: u32, n: int): u32 { (a + n) % WRAP }

  function Sub32(a: u32, b: u32): u32 { (a - b) % WRAP }

  /** `(int32_t)(a - b) < 0` */
  predicate Lt(a: u32, b: u32) { Sub32(a, b) >= HALF }

  /** `(int32_t)(a - b) <= 0` */
  predicate Leq(a: u32, b: u32) { a == b || Lt(a, b) }

  /** `(int32_t)(a - b) > 0`; differs from `Lt(b, a)` only at distance 2^31. */
  predicate Gt(a: u32, b: u32) { 0 < Sub32(a, b) < HALF }

  lemma ModShift(x: int, k: int)
    ensures (x + k * WRAP) % WRAP == x % WRAP
  {
    var q := x / WRAP;
    assert x + k * WRAP == (q + k) * WRAP + x % WRAP;
  }

  lemma SubWrap(x: int, y: int)
    ensures Sub32(Wrap(x), Wrap(y)) == Wrap(x - y)
  {
    var a, b := x / WRAP, y / WRAP;
    assert Wrap(x) - Wrap(y) == x - y + (b - a) * WRAP;
    ModShift(x - y, b - a);
  }

  lemma AddWrap(x: int, n: int)
    ensures Add32(Wrap(x), n) == Wrap(x + n)
  {
    var a := x / WRAP;
    assert Wrap(x) + n == x + n + (-a) * WRAP;
    ModShift(x + n, -a);
  }

  lemma SmallWrap(d: int)
    requires -HALF <= d < WRAP
    ensures Wrap(d) == if d < 0 then d + WRAP else d
  {
    if d < 0 { ModShift(d, 1); }
  }

  /** Serial comparison agrees with integer comparison for positions less than half the
      sequence space apart, and for an `x` exactly that far below `y`. */
  lemma SerialOrder(x: int, y: int)
    requires -HALF <= x - y < HALF
    ensures Lt(Wrap(x), Wrap(y)) <==> x < y
    ensures Leq(Wrap(x), Wrap(y)) <==> x <= y
    ensures Gt(Wrap(x), Wrap(y)) <==> x > y
    ensures Wrap(x) == Wrap(y) <==> x == y
    ensures x >= y ==> Sub32(Wrap(x), Wrap(y)) == x - y
  {
    SubWrap(x, y);
    SmallWrap(x - y);
    if Wrap(x) == Wrap(y) {
      assert Sub32(Wrap(x), Wrap(y)) == 0;
    }
  }

  /** Every number is some position at or after `x`, less than one turn away. */
  lemma Reach(x: int, n: u32)
    ensures n == Wrap(x + Sub32(n, Wrap(x)))
  {
    AddWrap(x, Sub32(n, Wrap(x)));
  }

  /** Subtraction that stops at zero, as the code guards its counters. */
  function Minus(a: nat, b: nat): nat {
    if a >= b then a - b else 0
  }
}
