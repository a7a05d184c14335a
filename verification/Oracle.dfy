/**
 The pixel oracle: the value the host expects where the shader writes fract(coord / 64).

 Every intermediate value of the C expression is a multiple of 1/128 small enough to be
 exact in the float type it uses, so the expression is modelled over the reals.
 */
module Oracle {
  function Fract(r: real): (f: real)
    ensures 0.0 <= f < 1.0
  {
    r - r.Floor as real
  }

  // fminf(fmaxf(f, 0), 1)
  function Clamp(f: real): real {
    if f < 0.0 then 0.0 else if f > 1.0 then 1.0 else f
  }

  /** lround: to nearest, halves away from zero. */
  function LRound(r: real): int {
    if r >= 0.0 then (r + 0.5).Floor else -((-r + 0.5).Floor)
  }

  /** What a UNORM channel with maximum `scale` stores for the ramp at coordinate v. */
  function Expect(v: int, phase: real, scale: int): int {
    LRound(Clamp(Fract((v as real + 0.5 + phase) / 64.0)) * scale as real)
  }

  function ExpectR(x: int): int {
    Expect(x, 0.0, 255)
  }

  function ExpectR16(x: int): int {
    Expect(x, 0.0, 65535)
  }

  /** The phase form of pvranimate. */
  function ExpectPhase(v: int, phase: real): int {
    Expect(v, phase, 255)
  }

  // ---------------------------------------------------------------- the exact form

  /** Twice the coordinate, plus one, within the period. */
  function Odd(x: int): (k: int)
    ensures 0 <= k <= 127
  {
    (2 * x + 1) % 128
  }

  lemma OddIs(x: int)
    ensures Odd(x) == 2 * (x % 64) + 1
  {
    var q := x / 64;
    assert 2 * x + 1 == 128 * q + (2 * (x % 64) + 1);
  }

  lemma FractIs(x: int)
    ensures Fract((x as real + 0.5) / 64.0) == Odd(x) as real / 128.0
  {
    var q := (2 * x + 1) / 128;
    var r := (x as real + 0.5) / 64.0;
    assert 2 * x + 1 == 128 * q + Odd(x);
    assert r == q as real + Odd(x) as real / 128.0;
    assert r.Floor == q;
  }

  /** The ideal value, before rounding. */
  function Ideal(x: int, scale: int): real {
    (scale * Odd(x)) as real / 128.0
  }

  lemma ExpectIsRoundedIdeal(x: int, scale: int)
    requires scale >= 0
    ensures Expect(x, 0.0, scale) == (Ideal(x, scale) + 0.5).Floor
  {
    FractIs(x);
    assert (x as real + 0.5 + 0.0) / 64.0 == (x as real + 0.5) / 64.0;
    var f := Odd(x) as real / 128.0;
    assert 0.0 <= f <= 1.0 && f * scale as real == Ideal(x, scale) >= 0.0;
  }

  lemma OddTimesOdd(x: int, scale: int)
    requires scale % 2 == 1
    ensures (scale * Odd(x)) % 2 == 1
  {
    OddIs(x);
    var a, b := scale / 2, x % 64;
    assert scale * Odd(x) == (2 * a + 1) * (2 * b + 1) == 2 * (2 * a * b + a + b) + 1;
  }

  lemma OddHasNoTie(n: int)
    requires n % 2 == 1
    ensures -0.5 < (n as real / 128.0 + 0.5).Floor as real - n as real / 128.0 < 0.5
  {
    var e := (n as real / 128.0 + 0.5).Floor;
    assert 128 * e != n + 64;
  }

  /** An odd maximum never meets a rounding tie: the ideal value is an odd number of
      128ths, so it lies strictly within a half of exactly one integer. */
  lemma NearestAndNoTie(x: int, scale: int)
    requires scale >= 1 && scale % 2 == 1
    ensures var e := Expect(x, 0.0, scale) as real; -0.5 < e - Ideal(x, scale) < 0.5
  {
    ExpectIsRoundedIdeal(x, scale);
    OddTimesOdd(x, scale);
    OddHasNoTie(scale * Odd(x));
  }

  /** Hence any rule that rounds to a nearest integer gives the value the host expects. */
  lemma AnyNearestRule(x: int, scale: int, n: int)
    requires scale >= 1 && scale % 2 == 1
    requires -0.5 <= n as real - Ideal(x, scale) <= 0.5
    ensures n == Expect(x, 0.0, scale)
  {
    NearestAndNoTie(x, scale);
  }

  /** v is what rounding the ideal value to a nearest integer gives. */
  predicate Nearest(v: int, x: int, scale: int) {
    -0.5 <= v as real - Ideal(x, scale) <= 0.5
  }

  lemma NearestIff(v: int, x: int, scale: int)
    requires scale >= 1 && scale % 2 == 1
    ensures Nearest(v, x, scale) <==> v == Expect(x, 0.0, scale)
  {
    NearestAndNoTie(x, scale);
  }

  lemma IntegerForm(x: int, scale: int)
    requires scale >= 0
    ensures Expect(x, 0.0, scale) == (scale * Odd(x) + 64) / 128
  {
    ExpectIsRoundedIdeal(x, scale);
    var n := scale * Odd(x) + 64;
    assert Ideal(x, scale) + 0.5 == n as real / 128.0;
    assert n == 128 * (n / 128) + n % 128;
    assert (n as real / 128.0).Floor == n / 128;
  }

  lemma OtherQuotient(n: int, q: int, rest: int)
    requires n == 128 * q + rest && (rest < 0 || rest >= 128)
    ensures n / 128 != q
  {
  }

  lemma NotTheTie(m: int, q: int, r: int)
    requires 255 * (2 * m + 1) + 64 == 128 * q + r
    ensures r != 64
  {
    assert r == 2 * (255 * m - 64 * q + 159) + 1;
  }

  lemma ScaledDiffers(k: int)
    requires k % 2 == 1
    ensures (65535 * k + 64) / 128 != 257 * ((255 * k + 64) / 128)
  {
    var q, r := (255 * k + 64) / 128, (255 * k + 64) % 128;
    assert 255 * k + 64 == 128 * q + r;
    NotTheTie(k / 2, q, r);
    OtherQuotient(65535 * k + 64, 257 * q, 257 * r - 16384);
  }

  /** The 16-bit value is not the 8-bit one scaled by 257, at any coordinate. */
  lemma SixteenBitsDiffer(x: int)
    ensures ExpectR16(x) != 257 * ExpectR(x)
    ensures ExpectR16(0) == 512 && ExpectR(0) == 2
  {
    OddIs(x);
    IntegerForm(x, 255);
    IntegerForm(x, 65535);
    ScaledDiffers(Odd(x));
    IntegerForm(0, 255);
    IntegerForm(0, 65535);
  }

  // ---------------------------------------------------------------- period and injectivity

  /** Period 64, strictly increasing within a period. */
  lemma Ramp(x: int, y: int)
    ensures ExpectR(x) < ExpectR(y) <==> x % 64 < y % 64
    ensures ExpectR(x) == ExpectR(y) <==> x % 64 == y % 64
    ensures ExpectR16(x) == ExpectR16(y) <==> x % 64 == y % 64
  {
    OddIs(x);
    OddIs(y);
    IntegerForm(x, 255);
    IntegerForm(y, 255);
    IntegerForm(x, 65535);
    IntegerForm(y, 65535);
  }
}
