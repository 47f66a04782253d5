/** 16-bit floats: `half2float` and `float2half` of `typeConv.cpp`, over the reals (binary16 of
    IEEE 754-2008, section 3.4). NaN and infinity patterns are outside this model. */
module HalfFloat {
  /** Powers of two with integer exponents. */
  function Pow2(k: int): (r: real)
    ensures r > 0.0
    decreases if k < 0 then -k else k
  {
    if k == 0 then 1.0 else if k > 0 then 2.0 * Pow2(k - 1) else Pow2(k + 1) / 2.0
  }

  lemma Pow2Step(k: int)
    ensures Pow2(k + 1) == 2.0 * Pow2(k)
  {
  }

  lemma {:induction false} Pow2Monotone(j: int, k: int)
    requires j <= k
    ensures Pow2(j) <= Pow2(k)
    decreases k - j
  {
    if j < k {
      Pow2Monotone(j + 1, k);
      Pow2Step(j);
    }
  }

  const MAX_BASE: int := 1024
  const BIAS_EXP: int := 15
  const MAX_HALF: real := 65504.0

  /** The rounded constant that the source uses for 2^-24. */
  const RESULT: real := 0.0000000596046

  /** `half2float` on a bit pattern without its sign: exponent `p / 1024`, mantissa `p % 1024`. */
  function Magnitude(p: nat): real {
    var e, m := p / MAX_BASE, p % MAX_BASE;
    if e == 0 then m as real * RESULT
    else Pow2(e - BIAS_EXP) * (1.0 + m as real / 1024.0)
  }

  /** `half2float` on the signed 16-bit pattern. */
  function Half2Float(ib: int): real
    requires -0x8000 <= ib < 0x8000
  {
    if ib < 0 then -Magnitude((ib + 0x8000) as nat) else Magnitude(ib as nat)
  }

  /** 2 to the power `n` as a whole number. */
  function Power(n: nat): nat {
    if n == 0 then 1 else 2 * Power(n - 1)
  }

  lemma {:induction false} PowerIs(n: nat, k: int)
    requires k == n as int - 25
    ensures Pow2(k) * 33554432.0 == Power(n) as real
    decreases n
  {
    if n == 0 {
      Constants();
    } else {
      PowerIs(n - 1, k - 1);
      Pow2Step(k - 1);
    }
  }

  /** Section 3.4 of IEEE 754-2008 in plain numbers: exponent `e` and mantissa `m` mean
      (1 + m / 1024) * 2^(e - 15) or, for the exponent zero, m * 2^-24, which the source's constant makes
      smaller by less than a thousandth of 2^-24; the sign is the top bit. */
  lemma Half2FloatIs(sign: nat, e: nat, m: nat)
    requires sign < 2 && e < 31 && m < 1024
    ensures var ib := 1024 * e + m - 32768 * sign;
            var v := if sign == 1 then -Half2Float(ib) else Half2Float(ib);
            if e == 0 then m as real - 0.001 < v * 16777216.0 <= m as real
            else v * 33554432.0 == (1024 + m) as real * Power(e) as real
  {
    hide Power, Magnitude;
    MagnitudeIs(e, m);
  }

  lemma MagnitudeIs(e: nat, m: nat)
    requires e < 31 && m < 1024
    ensures var v := Magnitude(1024 * e + m);
            if e == 0 then m as real - 0.001 < v * 16777216.0 <= m as real
            else v * 33554432.0 == (1024 + m) as real * Power(e) as real
  {
    hide Power, Pow2;
    var p := 1024 * e + m;
    assert p / 1024 == e && p % 1024 == m;
    if e > 0 {
      var scale := Pow2(e - 15);
      assert Magnitude(p) == scale * (1.0 + m as real / 1024.0);
      PowerIs(e + 10, e - 15);
      PowerTen(e);
      hide Magnitude;
      Mantissa(scale, m as real, Power(e) as real);
    }
  }

  lemma PowerTen(e: nat)
    ensures Power(e + 10) == 1024 * Power(e)
  {
    assert Power(e + 2) == 4 * Power(e);
    assert Power(e + 4) == 4 * Power(e + 2);
    assert Power(e + 6) == 4 * Power(e + 4);
    assert Power(e + 8) == 4 * Power(e + 6);
  }

  lemma Mantissa(p: real, m: real, power: real)
    requires p * 33554432.0 == 1024.0 * power
    ensures p * (1.0 + m / 1024.0) * 33554432.0 == (1024.0 + m) * power
  {
    assert p * (1.0 + m / 1024.0) * 1024.0 == p * (1024.0 + m);
    assert (p * 32768.0) * (1024.0 + m) == power * (1024.0 + m);
  }

  predicate IsFinite(p: nat) {
    p < 31 * MAX_BASE
  }

  /** `round`: to the nearest integer, halves away from zero (arguments here are not negative). */
  function Round(x: real): int {
    (x + 0.5).Floor
  }

  /** `floor(log2(x))`, by search from `k` upwards. */
  function FloorLog2(x: real, k: int): (r: int)
    requires Pow2(k) <= x && k <= 16 && x < Pow2(16)
    ensures Pow2(r) <= x < Pow2(r + 1) && k <= r < 16
    decreases 16 - k
  {
    if x < Pow2(k + 1) then Limit(x, k); k else FloorLog2(x, k + 1)
  }

  lemma Limit(x: real, k: int)
    requires Pow2(k) <= x < Pow2(16) && k <= 16
    ensures k < 16
  {
  }

  lemma Constants()
    ensures Pow2(16) == 65536.0 && Pow2(15) == 32768.0
    ensures Pow2(-25) == 1.0 / 33554432.0 && Pow2(-14) == 1.0 / 16384.0
  {
    assert Pow2(4) == 16.0 && Pow2(8) == 256.0 && Pow2(12) == 4096.0;
    assert Pow2(-4) == 1.0 / 16.0 && Pow2(-8) == 1.0 / 256.0 && Pow2(-12) == 1.0 / 4096.0;
    assert Pow2(-16) == 1.0 / 65536.0 && Pow2(-20) == 1.0 / 1048576.0 && Pow2(-24) == 1.0 / 16777216.0;
  }

  lemma Sign(t: real, p: real)
    requires p > 0.0
    ensures (t * p < 0.0 <==> t < 0.0) && (t * p > 0.0 <==> t > 0.0)
  {
  }

  lemma Scale(x: real, p: real)
    requires p > 0.0 && p <= x < 2.0 * p
    ensures 1.0 <= x / p < 2.0
  {
    var q := x / p;
    assert q * p == x;
    var t, u := q - 1.0, 2.0 - q;
    assert t * p == x - p;
    assert u * p == 2.0 * p - x;
    Sign(t, p);
    Sign(u, p);
  }

  /** `float2half` of a magnitude: the clamp, the flush to zero below 2^-25, the two branches. */
  function Pattern(value: real): (r: int)
    requires value >= 0.0
    ensures r >= 0
  {
    var x := if value > MAX_HALF then MAX_HALF else value;
    Constants();
    if x < Pow2(-25) then 0
    else
      var e := BIAS_EXP + FloorLog2(x, -25);
      Scale(x, Pow2(e - BIAS_EXP));
      if e <= 0 then Round(x * 16777216.0)
      else e * MAX_BASE + Round((x / Pow2(e - BIAS_EXP) - 1.0) * 1024.0)
  }

  /** `float2half`: the sign bit is dropped when the magnitude flushes to zero. */
  function Float2Half(value: real): int {
    if value < 0.0 then
      (if -value < Pow2(-25) then 0 else Pattern(-value) - 0x8000)
    else Pattern(value)
  }

  // ------------------------------------------------------------------ the two branches

  lemma FloorLog2Is(x: real, from: int, k: int)
    requires Pow2(from) <= x && from <= 16 && x < Pow2(16)
    requires Pow2(k) <= x < Pow2(k + 1)
    ensures FloorLog2(x, from) == k
  {
    var r := FloorLog2(x, from);
    if r < k {
      Pow2Monotone(r + 1, k);
    } else if k < r {
      Pow2Monotone(k + 1, r);
    }
  }

  /** Below 2^-14 the pattern counts multiples of 2^-24. */
  lemma SubnormalPattern(x: real)
    requires 0.0 <= x < Pow2(-14)
    ensures Pattern(x) == Round(x * 16777216.0) && 0 <= Pattern(x) <= MAX_BASE
  {
    Constants();
    if x >= Pow2(-25) {
      var k := FloorLog2(x, -25);
      if k >= -14 {
        Pow2Monotone(-14, k);
      }
    }
  }

  /** From 2^k on, k at least -14, it is the exponent and the rounded mantissa; a mantissa that rounds
      up to 1024 carries into the exponent. */
  lemma NormalPattern(x: real, k: int)
    requires -14 <= k <= 15 && Pow2(k) <= x < Pow2(k + 1) && x <= MAX_HALF
    ensures Pattern(x) == (BIAS_EXP + k) * MAX_BASE + Round((x / Pow2(k) - 1.0) * 1024.0)
    ensures 0 <= Round((x / Pow2(k) - 1.0) * 1024.0) <= MAX_BASE
  {
    Constants();
    Pow2Monotone(-25, k);
    Pow2Monotone(k + 1, 16);
    FloorLog2Is(x, -25, k);
    Pow2Step(k);
    Scale(x, Pow2(k));
  }

  lemma Exponent(x: real) returns (k: int)
    requires Pow2(-14) <= x <= MAX_HALF
    ensures -14 <= k <= 15 && Pow2(k) <= x < Pow2(k + 1)
  {
    Constants();
    k := FloorLog2(x, -14);
  }

  /** The source keeps the logarithm in single precision, which can round it up to the next integer when
      `x` is just below a power of two. The pattern is the same either way: the smaller exponent's
      mantissa rounds up to a carry, the larger one's rounds to zero. */
  lemma LogRoundingHarmless(x: real, k: int)
    requires -15 <= k <= 14 && 4095.0 * Pow2(k + 1) <= 4096.0 * x && x < Pow2(k + 1)
    ensures Pattern(x) == (BIAS_EXP + k + 1) * MAX_BASE + Round((x / Pow2(k + 1) - 1.0) * 1024.0)
  {
    hide Pattern, Pow2;
    var p := Pow2(k + 1);
    var q := x / p;
    JustBelowOne(x, p, q);
    Pow2Step(k);
    if k == -15 {
      Constants();
      SubnormalPattern(x);
    } else {
      Constants();
      Pow2Monotone(k + 1, 15);
      NormalPattern(x, k);
      DoubleQuotient(x, Pow2(k), p);
    }
  }

  lemma JustBelowOne(x: real, p: real, q: real)
    requires p > 0.0 && 4095.0 * p <= 4096.0 * x && x < p && q == x / p
    ensures 4095.0 / 4096.0 <= q < 1.0
  {
    var t, u := q - 4095.0 / 4096.0, 1.0 - q;
    assert q * p == x;
    assert t * p == x - 4095.0 / 4096.0 * p;
    assert u * p == p - x;
    Sign(t, p);
    Sign(u, p);
  }

  lemma DoubleQuotient(x: real, half: real, p: real)
    requires half > 0.0 && p == 2.0 * half
    ensures x / half == 2.0 * (x / p)
  {
    assert (x / p) * p == x;
  }

  // ------------------------------------------------------------------ monotone

  lemma DivideMonotone(x: real, y: real, p: real)
    requires p > 0.0 && x <= y
    ensures x / p <= y / p
  {
    var t := y / p - x / p;
    assert (x / p) * p == x && (y / p) * p == y;
    assert t * p == y - x;
    Sign(t, p);
  }

  lemma SameBinade(x: real, y: real, k: int)
    requires -14 <= k <= 15 && Pow2(k) <= x <= y < Pow2(k + 1) && y <= MAX_HALF
    ensures Pattern(x) <= Pattern(y)
  {
    hide Pattern;
    NormalPattern(x, k);
    NormalPattern(y, k);
    DivideMonotone(x, y, Pow2(k));
  }

  lemma MonotoneBelowMax(x: real, y: real)
    requires 0.0 <= x <= y <= MAX_HALF
    ensures Pattern(x) <= Pattern(y)
  {
    hide Pattern, Pow2;
    if y < Pow2(-14) {
      SubnormalPattern(x);
      SubnormalPattern(y);
    } else {
      var l := Exponent(y);
      NormalPattern(y, l);
      if x < Pow2(-14) {
        SubnormalPattern(x);
      } else {
        var k := Exponent(x);
        if k == l {
          SameBinade(x, y, k);
        } else {
          NormalPattern(x, k);
          if l < k {
            Pow2Monotone(l + 1, k);
          }
        }
      }
    }
  }

  /** `float2half` is monotone on the non-negative numbers: across every binade, through the carry,
      through the subnormal join, and into saturation. */
  lemma PatternMonotone(x: real, y: real)
    requires 0.0 <= x <= y
    ensures Pattern(x) <= Pattern(y)
  {
    MonotoneBelowMax(if x > MAX_HALF then MAX_HALF else x, if y > MAX_HALF then MAX_HALF else y);
  }

  // ------------------------------------------------------------------ inverse

  lemma ProductBounds(p: real, f: real, x: real)
    requires p > 0.0 && 1.0 <= f < 2.0 && x == p * f
    ensures p <= x < 2.0 * p
  {
  }

  lemma ProductQuotient(p: real, f: real, x: real)
    requires p > 0.0 && x == p * f
    ensures x / p == f
  {
  }

  lemma TopBinade(p: real, f: real, x: real)
    requires p == 32768.0 && f <= 2047.0 / 1024.0 && x == p * f
    ensures x <= MAX_HALF
  {
  }

  lemma NormalRange(k: int, f: real, x: real)
    requires -14 <= k <= 15 && 1.0 <= f <= 2047.0 / 1024.0 && x == Pow2(k) * f
    ensures Pow2(k) <= x < Pow2(k + 1) && x <= MAX_HALF && x / Pow2(k) == f
  {
    hide Pow2;
    ProductBounds(Pow2(k), f, x);
    ProductQuotient(Pow2(k), f, x);
    Pow2Step(k);
    BelowMax(k, f, x);
  }

  lemma BelowMax(k: int, f: real, x: real)
    requires k <= 15 && f <= 2047.0 / 1024.0 && x == Pow2(k) * f && x < Pow2(k + 1)
    ensures x <= MAX_HALF
  {
    hide Pow2;
    Constants();
    if k < 15 {
      Pow2Monotone(k + 1, 15);
    } else {
      TopBinade(Pow2(k), f, x);
    }
  }

  /** The subnormals survive although their constant is rounded: the error stays below half a step. */
  lemma SubnormalInverts(m: nat)
    requires m < MAX_BASE
    ensures Pattern(m as real * RESULT) == m
  {
    Constants();
    var x := m as real * RESULT;
    assert 0.0 <= x < Pow2(-14);
    SubnormalPattern(x);
    assert m as real - 0.5 <= x * 16777216.0 < m as real + 0.5;
  }

  lemma NormalInverts(e: int, m: nat, x: real)
    requires 1 <= e <= 30 && m < MAX_BASE && x == Pow2(e - BIAS_EXP) * (1.0 + m as real / 1024.0)
    ensures x >= 0.0 && Pattern(x) == e * MAX_BASE + m
  {
    hide Pattern, Pow2;
    var k := e - BIAS_EXP;
    NormalRange(k, 1.0 + m as real / 1024.0, x);
    NormalPattern(x, k);
    assert (x / Pow2(k) - 1.0) * 1024.0 == m as real;
  }

  /** It inverts `half2float` on every finite non-negative pattern. */
  lemma PatternInvertsMagnitude(p: nat)
    requires IsFinite(p)
    ensures Magnitude(p) >= 0.0 && Pattern(Magnitude(p)) == p
  {
    hide Pattern, Pow2;
    var e, m := p / MAX_BASE, p % MAX_BASE;
    assert p == e * MAX_BASE + m;
    if e == 0 {
      assert Magnitude(p) == m as real * RESULT;
      SubnormalInverts(m);
    } else {
      NormalInverts(e, m, Magnitude(p));
    }
  }

  /** On signed patterns it is the inverse exactly away from negative zero, which loses its sign. */
  lemma Float2HalfInverts(ib: int)
    requires -0x8000 <= ib < 0x8000
    requires IsFinite(if ib < 0 then ib + 0x8000 else ib)
    ensures Float2Half(Half2Float(ib)) == ib <==> ib != -0x8000
  {
    hide Pattern, Pow2, Magnitude;
    if ib < 0 {
      var p: nat := ib + 0x8000;
      PatternInvertsMagnitude(p);
      if p > 0 {
        MagnitudePositive(p);
      } else {
        MagnitudeZero();
      }
    } else {
      PatternInvertsMagnitude(ib);
    }
  }

  lemma MagnitudeZero()
    ensures Magnitude(0) == 0.0
  {
  }

  lemma MagnitudePositive(p: nat)
    requires IsFinite(p) && p > 0
    ensures Magnitude(p) >= Pow2(-25)
  {
    hide Pow2;
    var e, m := p / MAX_BASE, p % MAX_BASE;
    assert p == e * MAX_BASE + m;
    if e > 0 {
      NormalRange(e - BIAS_EXP, 1.0 + m as real / 1024.0, Magnitude(p));
      Pow2Monotone(-25, e - BIAS_EXP);
    } else {
      Constants();
    }
  }

  // ------------------------------------------------------------------ error

  lemma MagnitudeOfCarry(e: int, m: nat)
    requires 1 <= e <= 30 && m <= MAX_BASE && e * MAX_BASE + m < 31 * MAX_BASE
    ensures Magnitude(e * MAX_BASE + m) == Pow2(e - BIAS_EXP) * (1.0 + m as real / 1024.0)
  {
    if m == MAX_BASE {
      assert e * MAX_BASE + m == (e + 1) * MAX_BASE;
      Pow2Step(e - BIAS_EXP);
    }
  }

  lemma NormalFinite(x: real, k: int)
    requires -14 <= k <= 15 && Pow2(k) <= x < Pow2(k + 1) && x <= MAX_HALF
    ensures IsFinite(Pattern(x))
  {
    hide Pattern;
    NormalPattern(x, k);
    if k == 15 {
      Constants();
      DivideMonotone(x, MAX_HALF, Pow2(15));
      assert MAX_HALF / 32768.0 == 1.9990234375;
    }
  }

  /** Converting there and back moves a number of the normal range by at most half a unit in the last
      place: at most 2^-11 of its binade. */
  lemma NormalError(x: real, k: int)
    requires -14 <= k <= 15 && Pow2(k) <= x < Pow2(k + 1) && x <= MAX_HALF
    ensures IsFinite(Pattern(x))
    ensures -Pow2(k) <= (Magnitude(Pattern(x)) - x) * 2048.0 <= Pow2(k)
  {
    hide Pattern, Magnitude, Pow2;
    NormalPattern(x, k);
    NormalFinite(x, k);
    var p := Pow2(k);
    var q := x / p;
    var m := Round((q - 1.0) * 1024.0);
    MagnitudeOfCarry(BIAS_EXP + k, m);
    assert q * p == x;
    hide Round;
    HalfStep(p, q, m, Magnitude(Pattern(x)), x);
  }

  lemma HalfStep(p: real, q: real, m: int, there: real, x: real)
    requires p > 0.0 && m == Round((q - 1.0) * 1024.0)
    requires there == p * (1.0 + m as real / 1024.0) && x == q * p
    ensures -p <= (there - x) * 2048.0 <= p
  {
    var d := 2.0 * (m as real - (q - 1.0) * 1024.0);
    assert -1.0 <= d <= 1.0;
    assert (there - x) * 2048.0 == d * p;
    Shrink(d, p);
  }

  lemma Shrink(d: real, p: real)
    requires p > 0.0 && -1.0 <= d <= 1.0
    ensures -p <= d * p <= p
  {
  }

  /** Below the normal range the error is half a step of 2^-24, plus what the rounded constant adds. */
  lemma SubnormalError(x: real)
    requires 0.0 <= x < Pow2(-14)
    ensures IsFinite(Pattern(x))
    ensures -0.501 <= (Magnitude(Pattern(x)) - x) * 16777216.0 <= 0.501
  {
    Constants();
    SubnormalPattern(x);
    var m := Round(x * 16777216.0);
    if m == MAX_BASE {
      assert Magnitude(1024) == Pow2(-14) * (1.0 + 0.0);
    }
  }
}
