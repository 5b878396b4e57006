/** Ticks, base-256 digits and slot boundaries of the timing wheel
    (pro-stack/owner_timer.c). */
module WheelMath {
  const MAX64 := 0xFFFF_FFFF_FFFF_FFFF
  const LEVELS := 8
  const SLOTS := 256
  const BUCKETS := 2048

  /** `x` without its lowest `level` bytes. */
  function High(x: nat, level: nat): nat {
    if level == 0 then x else High(x, level - 1) / 256
  }

  /** `q` followed by `level` zero bytes. */
  function Scale(q: nat, level: nat): nat
    decreases level
  {
    if level == 0 then q else Scale(q * 256, level - 1)
  }

  /** Cutting bytes off respects the order against round numbers. */
  lemma {:induction false} HighBelow(x: nat, q: nat, level: nat)
    ensures High(x, level) < q <==> x < Scale(q, level)
    decreases level
  {
    if level > 0 { HighBelow(x, q * 256, level - 1); }
  }

  lemma {:induction false} HighScale(q: nat, level: nat)
    ensures High(Scale(q, level), level) == q
    decreases level
  {
    if level > 0 { HighScale(q * 256, level - 1); }
  }

  lemma {:induction false} HighMonotone(x: nat, y: nat, level: nat)
    requires x <= y
    ensures High(x, level) <= High(y, level)
  {
    if level > 0 { HighMonotone(x, y, level - 1); }
  }

  /** Which level of the wheel tells `tick` from `cursor`: their highest
      differing byte, counted from `level`. */
  function Level(tick: nat, cursor: nat, level: nat): nat
    requires level < LEVELS && High(tick, LEVELS) == High(cursor, LEVELS)
    decreases LEVELS - level
  {
    if level == LEVELS - 1 || High(tick, level + 1) == High(cursor, level + 1) then level
    else Level(tick, cursor, level + 1)
  }

  /** `wheel_boundary`: the first tick of a slot, as seen from `cursor`. */
  function Boundary(cursor: nat, level: nat, slot: nat): nat {
    Scale(High(cursor, level + 1) * 256 + slot, level)
  }

  /** A tick belongs in this slot: all higher bytes agree with the cursor, this
      byte is the slot, and it lies ahead of the cursor. */
  ghost predicate Placed(tick: nat, cursor: nat, level: nat, slot: nat) {
    && level < LEVELS && slot < SLOTS && High(tick, level + 1) == High(cursor, level + 1)
    && High(tick, level) % 256 == slot && High(cursor, level) % 256 < slot
  }

  lemma {:induction false} LevelPlaces(tick: nat, cursor: nat, level: nat)
    requires
      && cursor < tick && level < LEVELS && High(tick, LEVELS) == High(cursor, LEVELS)
      && High(cursor, level) < High(tick, level)
    ensures
      var l := Level(tick, cursor, level);
      l < LEVELS && Placed(tick, cursor, l, High(tick, l) % 256)
    decreases LEVELS - level
  {
    HighMonotone(cursor, tick, level + 1);
    if level < LEVELS - 1 && High(tick, level + 1) != High(cursor, level + 1) {
      LevelPlaces(tick, cursor, level + 1);
    }
  }

  /** Where a slot begins lies ahead of the cursor and not after its ticks. */
  lemma BoundaryBetween(tick: nat, cursor: nat, level: nat, slot: nat)
    requires Placed(tick, cursor, level, slot)
    ensures cursor < Boundary(cursor, level, slot) <= tick
  {
    var q := High(cursor, level + 1) * 256 + slot;
    HighBelow(cursor, q, level);
    HighBelow(tick, q, level);
  }

  /** Until the cursor reaches the boundary the slot stays right. */
  lemma PlacedStays(tick: nat, c: nat, d: nat, level: nat, slot: nat)
    requires Placed(tick, c, level, slot) && c <= d < Boundary(c, level, slot)
    ensures Placed(tick, d, level, slot) && Boundary(d, level, slot) == Boundary(c, level, slot)
  {
    var q := High(c, level + 1) * 256 + slot;
    HighBelow(d, q, level);
    HighMonotone(c, d, level);
  }

  /** Two different slots never begin at the same tick. */
  lemma BoundariesDiffer(c: nat, l1: nat, s1: nat, l2: nat, s2: nat)
    requires l1 < l2 && High(c, l1) % 256 < s1 < SLOTS && High(c, l2) % 256 < s2 < SLOTS
    ensures Boundary(c, l1, s1) < Boundary(c, l2, s2)
  {
    var q := High(c, l2 + 1) * 256 + s2;
    HighScale(High(c, l1 + 1) * 256 + s1, l1);
    SameAbove(Boundary(c, l1, s1), c, l1 + 1, l2);
    HighBelow(Boundary(c, l1, s1), q, l2);
  }

  lemma {:induction false} SameAbove(x: nat, y: nat, level: nat, above: nat)
    requires level <= above && High(x, level) == High(y, level)
    ensures High(x, above) == High(y, above)
    decreases above
  {
    if level < above { SameAbove(x, y, level, above - 1); }
  }

  lemma {:induction false} ScaleMonotone(p: nat, q: nat, level: nat)
    requires p < q
    ensures Scale(p, level) < Scale(q, level)
    decreases level
  {
    if level > 0 { ScaleMonotone(p * 256, q * 256, level - 1); }
  }

  /** Every 64-bit number has eight bytes. */
  lemma EightBytes(x: nat)
    requires x <= MAX64
    ensures High(x, LEVELS) == 0
  {
    HighBelow(x, 1, LEVELS);
    assert Scale(1, 8) == Scale(256, 7) == Scale(65536, 6) == Scale(0x100_0000, 5) == Scale(0x1_0000_0000, 4);
    assert Scale(0x1_0000_0000, 4) == Scale(0x100_0000_0000, 3) == Scale(0x1_0000_0000_0000, 2) ==
      Scale(0x100_0000_0000_0000, 1) == MAX64 + 1;
  }

  function Min64(x: nat): nat { if x > MAX64 then MAX64 else x }

  /** `wheel_tick`: cycles to milliseconds. */
  function Tick(cycles: nat, hz: nat, up: bool): nat
    requires hz > 0
  {
    Min64((cycles * 1000 + if up then hz - 1 else 0) / hz)
  }

  /** `wheel_cache_next` */
  function Cycles(tick: nat, hz: nat): nat { Min64((tick * hz + 999) / 1000) }

  /** The tick up to which a poll at `now` is due. */
  function Target(now: nat, hz: nat): nat
    requires hz > 0
  {
    Tick(now, hz, now == MAX64)
  }

  lemma DivBounds(a: nat, b: nat)
    requires b > 0
    ensures (a / b) * b <= a < (a / b + 1) * b
  {
    assert a == (a / b) * b + a % b;
  }

  lemma MulOrder(x: int, y: int, k: nat)
    ensures k > 0 && x * k < y * k ==> x < y
    ensures x <= y ==> x * k <= y * k
  {
    if x <= y { assert (y - x) * k >= 0; }
    if k > 0 && x >= y { assert (x - y) * k >= 0; }
  }

  /** Rounding up in milliseconds never saturates at 1 kHz or more. */
  lemma TickFits(cycles: nat, hz: nat, up: bool)
    requires hz >= 1000 && cycles <= MAX64
    ensures (cycles * 1000 + if up then hz - 1 else 0) / hz <= cycles
  {
    var a := cycles * 1000 + if up then hz - 1 else 0;
    DivBounds(a, hz);
    MulOrder(1000, hz, cycles);
    assert (cycles + 1) * hz == cycles * hz + hz;
    MulOrder(a / hz, cycles + 1, hz);
  }

  /** A deadline that has not passed is on a later tick than now. */
  lemma NotDueYet(deadline: nat, now: nat, hz: nat)
    requires hz >= 1000 && now < deadline <= MAX64
    ensures Tick(deadline, hz, true) > Target(now, hz)
  {
    TickFits(deadline, hz, true);
    TickFits(now, hz, false);
    var t, n := (deadline * 1000 + hz - 1) / hz, now * 1000 / hz;
    DivBounds(deadline * 1000 + hz - 1, hz);
    DivBounds(now * 1000, hz);
    assert (t + 1) * hz == t * hz + hz;
    MulOrder(n, t, hz);
  }

  lemma TargetMonotone(a: nat, b: nat, hz: nat)
    requires hz >= 1000 && a <= b <= MAX64
    ensures Target(a, hz) <= Target(b, hz)
  {
    if a < b {
      NotDueYet(b, a, hz);
      if b < MAX64 {
        TickFits(a, hz, false);
        TickFits(b, hz, false);
        DivBounds(a * 1000, hz);
        DivBounds(b * 1000, hz);
        var x, y := a * 1000 / hz, b * 1000 / hz;
        assert (y + 1) * hz == y * hz + hz;
        MulOrder(x, y + 1, hz);
      }
    }
  }

  /** Before the cached cycle count the cached tick is not reached. */
  lemma EarlyOut(now: nat, tick: nat, hz: nat)
    requires hz >= 1000 && now < Cycles(tick, hz)
    ensures Target(now, hz) < tick
  {
    DivBounds(now * 1000, hz);
    DivBounds(tick * hz + 999, 1000);
    var n := now * 1000 / hz;
    assert now * 1000 < tick * hz;
    MulOrder(n, tick, hz);
  }

  /** A timer is due at the latest when one rounded millisecond has passed. */
  lemma Punctual(deadline: nat, now: nat, hz: nat)
    requires hz >= 1000 && now <= MAX64 && deadline <= MAX64 && now * 1000 >= deadline * 1000 + hz - 1
    ensures Tick(deadline, hz, true) <= Target(now, hz)
  {
    TickFits(deadline, hz, true);
    TickFits(now, hz, false);
    TickFits(now, hz, true);
    DivOrder(deadline * 1000 + hz - 1, now * 1000, hz);
    DivOrder(deadline * 1000 + hz - 1, now * 1000 + hz - 1, hz);
  }

  lemma DivOrder(a: nat, b: nat, k: nat)
    requires a <= b && k > 0
    ensures a / k <= b / k
  {
    DivBounds(a, k);
    DivBounds(b, k);
    assert (b / k + 1) * k == (b / k) * k + k;
    MulOrder(a / k, b / k + 1, k);
  }

  /** `owner_timer_ms_to_cycles`, step by step within 64 bits. */
  function MsToCycles(ms: nat, hz: nat): nat
    requires ms <= MAX64 && hz <= MAX64
  {
    if hz == 0 then 0
    else
      var seconds, remainder := ms / 1000, ms % 1000;
      if seconds > MAX64 / hz then MAX64
      else
        var whole, part := hz / 1000, hz % 1000;
        if remainder != 0 && whole > MAX64 / remainder then MAX64
        else
          var fractional, rest := Times(remainder, whole), Times(remainder, part) / 1000;
          if rest > MAX64 - fractional then MAX64
          else if fractional + rest > MAX64 - Times(seconds, hz) then MAX64
          else Times(seconds, hz) + fractional + rest
  }

  function Times(a: nat, b: nat): nat { a * b }

  /** The steps lose nothing: the result is the exact quotient, saturated. */
  lemma MsToCyclesExact(ms: nat, hz: nat)
    requires ms <= MAX64 && hz <= MAX64
    ensures MsToCycles(ms, hz) == Min64(ms * hz / 1000)
  {
    var s, r, w, q := ms / 1000, ms % 1000, hz / 1000, hz % 1000;
    SplitProduct(s, r, w, q);
    if hz > 0 { OverLimit(s, hz); }
    if r > 0 { OverLimit(w, r); }
  }

  lemma OverLimit(a: nat, b: nat)
    requires b > 0
    ensures a > MAX64 / b <==> a * b > MAX64
  {
    DivBounds(MAX64, b);
    MulOrder(a, MAX64 / b, b);
    MulOrder(MAX64 / b + 1, a, b);
  }

  lemma SplitProduct(s: nat, r: nat, w: nat, q: nat)
    requires r < 1000 && q < 1000
    ensures (1000 * s + r) * (1000 * w + q) / 1000 == s * (1000 * w + q) + r * w + r * q / 1000
  {
    var k := s * (1000 * w + q) + r * w;
    assert (1000 * s + r) * (1000 * w + q) == 1000 * k + r * q by {
      assert (1000 * s + r) * (1000 * w + q) == 1000 * s * (1000 * w + q) + r * (1000 * w + q);
      assert r * (1000 * w + q) == 1000 * (r * w) + r * q;
      assert 1000 * s * (1000 * w + q) == 1000 * (s * (1000 * w + q));
    }
  }
}
