/** Division, remainders and counters that wrap: the facts the media clock code rests on. */
module WrapArithmetic {

  const U32: int := 0x1_0000_0000

  lemma MulNonNegative(k: int, d: int)
    requires k >= 0 && d >= 0
    ensures k * d >= 0
  {
  }

  lemma MulLess(a: int, b: int, d: int)
    requires d >= 0
    ensures a < b ==> a * d + d <= b * d
  {
    if a < b {
      var k := b - a - 1;
      MulNonNegative(k, d);
      assert b == a + 1 + k;
      assert (a + 1 + k) * d == a * d + d + k * d;
    }
  }

  /** The quotient and the remainder are the only ones. */
  lemma DivIs(x: int, d: int, q: int)
    requires d > 0
    requires q * d <= x < q * d + d
    ensures x / d == q && x % d == x - q * d
  {
    var p := x / d;
    assert x == p * d + x % d;
    MulLess(p, q, d);
    MulLess(q, p, d);
  }

  lemma ModShift(x: int, d: int, k: int)
    requires d > 0
    ensures (x + k * d) % d == x % d
  {
    var q := x / d;
    assert x == q * d + x % d;
    assert (q + k) * d == q * d + k * d;
    DivIs(x + k * d, d, q + k);
  }

  lemma MultipleTimes(x: int, y: int, d: int)
    requires d > 0 && x % d == 0
    ensures (x * y) % d == 0
  {
    var q := x / d;
    assert x == q * d;
    assert x * y == (q * y) * d;
    DivIs(x * y, d, q * y);
  }

  lemma WrapsLeft(x: int, y: int, w: int)
    requires w > 0
    ensures (x % w + y) % w == (x + y) % w
  {
    var p := x / w;
    assert x == p * w + x % w;
    assert x % w + y == (x + y) + (-p) * w;
    ModShift(x + y, w, -p);
  }

  lemma WrapsRight(x: int, y: int, w: int)
    requires w > 0
    ensures (x - y % w) % w == (x - y) % w
  {
    var q := y / w;
    assert y == q * w + y % w;
    assert x - y % w == (x - y) + q * w;
    ModShift(x - y, w, q);
  }

  /** Counters that wrap at `w` keep the sums and differences of the numbers they stand for. */
  lemma Wraps(x: int, y: int, w: int)
    requires w > 0
    ensures (x % w - y % w) % w == (x - y) % w
    ensures (x % w + y) % w == (x + y) % w
    ensures (x - y % w) % w == (x - y) % w
  {
    WrapsLeft(x, y, w);
    WrapsRight(x, y, w);
    WrapsLeft(x, -(y % w), w);
  }

  /** Wrapping at a multiple of `d` does not change remainders modulo `d`. */
  lemma ModOfMod(x: int, w: int, d: int)
    requires w > 0 && d > 0 && w % d == 0
    ensures (x % w) % d == x % d
  {
    var k, q := w / d, x / w;
    assert w == k * d;
    assert x == q * w + x % w;
    assert q * w == (q * k) * d;
    ModShift(x, d, -(q * k));
    assert -(q * k) * d == -(q * w);
  }

  /** A wrapped difference, read as a signed 32-bit number, has the sign of a small true difference. */
  lemma SignOfWrapped(d: int)
    requires -U32 / 2 < d < U32 / 2
    ensures 0 < d % U32 < U32 / 2 <==> d > 0
  {
    DivIs(d, U32, if d < 0 then -1 else 0);
  }

  /** The time from one 32-bit timestamp to another. */
  function Gap(from: nat, to: nat): (period: nat) {
    (to - from) % U32
  }

  /** On counters that wrap, that is the true time as long as it is less than a round. */
  lemma GapIs(from: nat, period: nat)
    requires period < U32
    ensures Gap(from % U32, (from + period) % U32) == period
  {
    Wraps(from + period, from, U32);
    DivIs(period, U32, 0);
  }

  /** The distance of two 32-bit numbers on the circle: the absolute value of their signed difference. */
  function AbsDist(a: nat, b: nat): (d: nat) {
    var x := (a - b) % U32;
    if x <= U32 / 2 then x else U32 - x
  }

  /** On counters that wrap, that is the true distance as long as it is at most half a round. */
  lemma AbsDistIs(a: nat, d: int)
    requires a + d >= 0 && -U32 / 2 <= d <= U32 / 2
    ensures AbsDist((a + d) % U32, a % U32) == if d < 0 then -d else d
  {
    Wraps(a + d, a, U32);
    DivIs(d, U32, if d < 0 then -1 else 0);
  }
}
