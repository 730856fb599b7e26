/** The fixed-point coding behind writeCompressedFloat and readCompressedFloat, over the reals. */
module Quantise {
  import opened Bits

  /** Bounds and resolution, which writer and reader must agree on */
  datatype Range = Range(lo: real, hi: real, resolution: real) {
    predicate Valid() {
      lo < hi && resolution > 0.0 && Steps() < 0x8000_0000
    }

    function Steps(): (m: int)
      requires lo < hi && resolution > 0.0
      ensures m >= 1
      ensures (hi - lo) / resolution <= m as real < (hi - lo) / resolution + 1.0
    {
      var steps := (hi - lo) / resolution;
      assert steps > 0.0;
      -((-steps).Floor)
    }

    function Width(): nat
      requires Valid()
    {
      CeilLog2(Steps())
    }

    function Clamp(x: real): real {
      if x < lo then lo else if x > hi then hi else x
    }

    /** The code written for x; std::clamp acts on the normalised value, std::round is to nearest. */
    function Code(x: real): (c: int)
      requires Valid()
    {
      var normalised := (x - lo) / (hi - lo);
      var clamped := if normalised < 0.0 then 0.0 else if normalised > 1.0 then 1.0 else normalised;
      (clamped * Steps() as real + 0.5).Floor
    }

    function Decode(c: int): real
      requires Valid()
    {
      c as real / Steps() as real * (hi - lo) + lo
    }
  }

  /** ceil(log m / log 2): the least n such that n bits have m values */
  function CeilLog2(m: nat): (n: nat)
    requires m >= 1
    ensures m <= Pow2(n) && (n > 0 ==> Pow2(n - 1) < m)
  {
    if m == 1 then 0 else CeilLog2((m + 1) / 2) + 1
  }

  lemma WidthBound(range: Range)
    requires range.Valid()
    ensures range.Width() <= 31
  {
    Pow2Values();
    if range.Width() > 31 {
      Pow2Monotone(31, range.Width() - 1);
    }
  }

  ghost predicate IsPowerOfTwo(m: nat) {
    exists k: nat :: Pow2(k) == m
  }

  lemma {:induction false} Pow2Strict(j: nat, k: nat)
    requires j < k
    ensures Pow2(j) < Pow2(k)
    decreases k
  {
    if j == k - 1 {
    } else {
      Pow2Strict(j, k - 1);
    }
  }

  /** The largest code, m itself, fits the width chosen for m exactly when m is no power of two. */
  lemma TopCodeFits(m: nat)
    requires m >= 1
    ensures m < Pow2(CeilLog2(m)) <==> !IsPowerOfTwo(m)
  {
    var n := CeilLog2(m);
    if m == Pow2(n) {
      assert IsPowerOfTwo(m);
    } else if IsPowerOfTwo(m) {
      var k: nat :| Pow2(k) == m;
      if k < n {
        Pow2Monotone(k, n - 1);
      } else if n < k {
        Pow2Strict(n, k);
      }
    }
  }

  lemma MulLe(a: real, b: real, c: real)
    requires a <= b && c >= 0.0
    ensures a * c <= b * c
  {
  }

  lemma PositiveProduct(a: real, b: real)
    requires a > 0.0 && b > 0.0
    ensures a * b > 0.0
  {
  }

  lemma DivMul(a: real, b: real)
    requires b > 0.0
    ensures a / b * b == a
  {
  }

  /** x, clamped, as a share of the range */
  lemma Share(r: Range, x: real) returns (t: real)
    requires r.Valid()
    ensures 0.0 <= t <= 1.0 && r.Clamp(x) == t * (r.hi - r.lo) + r.lo
    ensures r.Code(x) == (t * r.Steps() as real + 0.5).Floor
  {
    var delta := r.hi - r.lo;
    var normalised := (x - r.lo) / delta;
    DivMul(x - r.lo, delta);
    t := if normalised < 0.0 then 0.0 else if normalised > 1.0 then 1.0 else normalised;
    ShareCases(normalised, delta, x - r.lo);
    if t == 1.0 {
      assert t * delta == delta;
    }
  }

  lemma ShareCases(n: real, d: real, y: real)
    requires d > 0.0 && n * d == y
    ensures if n < 0.0 then y < 0.0 else if n > 1.0 then y > d else 0.0 <= y <= d
  {
    if n < 0.0 {
      PositiveProduct(-n, d);
    } else if n > 1.0 {
      PositiveProduct(n - 1.0, d);
      assert (n - 1.0) * d == y - d;
    } else {
      MulLe(n, 1.0, d);
    }
  }

  lemma CodeMiss(r: Range, t: real) returns (c: int)
    requires r.Valid() && 0.0 <= t <= 1.0
    ensures c == (t * r.Steps() as real + 0.5).Floor
    ensures 0 <= c <= r.Steps() && -0.5 <= c as real - t * r.Steps() as real <= 0.5
  {
    var m := r.Steps() as real;
    MulLe(0.0, t, m);
    MulLe(t, 1.0, m);
    Rounded(t * m, r.Steps());
    c := (t * m + 0.5).Floor;
  }

  lemma CodeRange(r: Range, x: real)
    requires r.Valid()
    ensures 0 <= r.Code(x) <= r.Steps()
  {
    var t := Share(r, x);
    var c := CodeMiss(r, t);
  }

  lemma Rounded(y: real, m: int)
    requires 0.0 <= y <= m as real
    ensures 0 <= (y + 0.5).Floor <= m
    ensures -0.5 <= (y + 0.5).Floor as real - y <= 0.5
  {
  }

  /** What is decoded is within half a step, and so within half the resolution, of x clamped. */
  lemma DecodeNear(r: Range, x: real)
    requires r.Valid()
    ensures var error := r.Decode(r.Code(x)) - r.Clamp(x);
            var half := (r.hi - r.lo) / (2.0 * r.Steps() as real);
            -half <= error <= half && half <= r.resolution / 2.0
  {
    var t := Share(r, x);
    var c := CodeMiss(r, t);
    var step := (r.hi - r.lo) / r.Steps() as real;
    CodeError(r, c, t, step);
    HalfOf(r, step);
    StepBelow(r.hi - r.lo, r.resolution, r.Steps() as real);
  }

  lemma CodeError(r: Range, c: int, t: real, step: real)
    requires r.Valid() && step == (r.hi - r.lo) / r.Steps() as real
    requires -0.5 <= c as real - t * r.Steps() as real <= 0.5
    ensures -0.5 * step <= r.Decode(c) - (t * (r.hi - r.lo) + r.lo) <= 0.5 * step
  {
    Missed(c as real, t, r.Steps() as real, r.hi - r.lo, step);
  }

  lemma Missed(c: real, t: real, m: real, delta: real, step: real)
    requires m > 0.0 && delta > 0.0 && step == delta / m && -0.5 <= c - t * m <= 0.5
    ensures -0.5 * step <= c / m * delta - t * delta <= 0.5 * step
  {
    var miss := c - t * m;
    DivPositive(delta, m);
    var error := StepTimes(c, t, m, delta, miss, step);
    Within(miss, step, error);
  }

  lemma HalfOf(r: Range, step: real)
    requires r.Valid() && step == (r.hi - r.lo) / r.Steps() as real
    ensures (r.hi - r.lo) / (2.0 * r.Steps() as real) == 0.5 * step
  {
    HalfStep(r.hi - r.lo, r.Steps() as real);
  }

  lemma DivPositive(a: real, b: real)
    requires a > 0.0 && b > 0.0
    ensures a / b > 0.0
  {
  }

  lemma Within(miss: real, step: real, error: real)
    requires -0.5 <= miss <= 0.5 && step > 0.0 && error == miss * step
    ensures -0.5 * step <= error <= 0.5 * step
  {
    MulLe(-0.5, miss, step);
    MulLe(miss, 0.5, step);
  }

  lemma StepTimes(c: real, t: real, m: real, delta: real, miss: real, step: real)
      returns (error: real)
    requires m > 0.0 && miss == c - t * m && step == delta / m
    ensures c / m * delta - t * delta == error && error == miss * step
  {
    DivMul(delta, m);
    DivMul(c, m);
    var q := c / m;
    assert q * delta == q * (step * m) == (q * m) * step == c * step;
    assert t * delta == t * (step * m) == (t * m) * step;
    error := miss * step;
    assert error == c * step - (t * m) * step;
  }

  lemma HalfStep(delta: real, m: real)
    requires m > 0.0
    ensures delta / (2.0 * m) == 0.5 * (delta / m)
  {
    var step := delta / m;
    DivMul(delta, m);
    assert delta == (0.5 * step) * (2.0 * m);
    DivUnique(delta, 2.0 * m, 0.5 * step);
  }

  lemma DivUnique(a: real, b: real, q: real)
    requires b > 0.0 && a == q * b
    ensures a / b == q
  {
    DivMul(a, b);
    assert (a / b - q) * b == 0.0;
  }

  lemma StepBelow(delta: real, resolution: real, m: real)
    requires resolution > 0.0 && m > 0.0 && delta / resolution <= m
    ensures delta / m <= resolution
  {
    DivMul(delta, resolution);
    MulLe(delta / resolution, m, resolution);
    assert delta <= m * resolution;
    DivMul(delta, m);
    var step := delta / m;
    if step > resolution {
      assert (step - resolution) * m > 0.0;
    }
  }

  /** Both ends of the range survive exactly. */
  lemma EndpointsExact(r: Range)
    requires r.Valid()
    ensures r.Code(r.lo) == 0 && r.Decode(0) == r.lo
    ensures r.Code(r.hi) == r.Steps() && r.Decode(r.Steps()) == r.hi
  {
    var m := r.Steps() as real;
    var delta := r.hi - r.lo;
    DivUnique(0.0, delta, 0.0);
    DivUnique(delta, delta, 1.0);
    DivUnique(0.0, m, 0.0);
    DivUnique(m, m, 1.0);
    assert (1.0 * m + 0.5).Floor == r.Steps();
  }

  /** Coding a decoded value again gives the same code, so repeated transfers do not drift. */
  lemma CodeOfDecode(r: Range, c: int)
    requires r.Valid() && 0 <= c <= r.Steps()
    ensures r.Code(r.Decode(c)) == c
  {
    var m := r.Steps() as real;
    var delta := r.hi - r.lo;
    var q := c as real / m;
    DivMul(c as real, m);
    DivUnique(q * delta, delta, q);
    assert r.Decode(c) - r.lo == q * delta;
    UnitShare(q, m, c as real);
    IntRounds(c);
    assert r.Code(r.Decode(c)) == (q * m + 0.5).Floor;
  }

  lemma UnitShare(q: real, m: real, c: real)
    requires m > 0.0 && q * m == c && 0.0 <= c <= m
    ensures 0.0 <= q <= 1.0
  {
    if q < 0.0 {
      PositiveProduct(-q, m);
    } else if q > 1.0 {
      PositiveProduct(q - 1.0, m);
    }
  }

  lemma IntRounds(c: int)
    ensures (c as real + 0.5).Floor == c
  {
  }

  // ----- ties

  /** A value half-way between two codes gets the upper one, as std::round does with what is not negative. */
  lemma {:induction false} TieRoundsUp(r: Range, x: real, k: int)
    requires r.Valid() && r.lo <= x <= r.hi && (x - r.lo) * r.Steps() as real == (k as real + 0.5) * (r.hi - r.lo)
    ensures r.Code(x) == k + 1
  {
    var m := r.Steps() as real;
    var delta := r.hi - r.lo;
    var n := (x - r.lo) / delta;
    DivMul(x - r.lo, delta);
    UnitShare(n, delta, x - r.lo);
    TieShare(n, delta, m, x - r.lo, k as real + 0.5);
    CodeInside(r, x, n);
    HalfUp(n * m, k);
  }

  lemma {:induction false} CodeInside(r: Range, x: real, n: real)
    requires r.Valid() && n == (x - r.lo) / (r.hi - r.lo) && 0.0 <= n <= 1.0
    ensures r.Code(x) == (n * r.Steps() as real + 0.5).Floor
  {
  }

  lemma TieShare(n: real, delta: real, m: real, y: real, share: real)
    requires delta > 0.0 && n * delta == y && y * m == share * delta
    ensures n * m == share
  {
    assert (n * m) * delta == (n * delta) * m;
    SameShare(n * m, share, delta);
  }

  lemma SameShare(t: real, u: real, delta: real)
    requires delta > 0.0 && t * delta == u * delta
    ensures t == u
  {
    DivUnique(t * delta, delta, t);
    DivUnique(t * delta, delta, u);
  }

  lemma HalfUp(y: real, k: int)
    requires y == k as real + 0.5
    ensures (y + 0.5).Floor == k + 1
  {
  }
}
