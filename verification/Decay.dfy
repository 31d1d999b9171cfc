/** Ages, decay masses, and the rounding applied to scores.

    Times are seconds, modelled as naturals. The numeric side of the scorer is a
    profile of arbitrary functions: what `top_k` needs of `powf`, `ln` and the
    cast to `f32` is only what `Lawful` says, and the lemmas at the end show that
    every branch of the code meets it. */
module Decays {
  import opened Numbers

  /** `FOLGA_DO_LIMITE`, the slack added to a bound before it is compared. */
  const FOLGA_DO_LIMITE: real := 0.000000001

  datatype Decay = Decay(
    d: real,
    mass: nat -> real,            // age^(-d)
    tailNum: (nat, nat) -> real,  // the integral of x^(-d) from h to l
    ln: real -> real,
    penalty: nat -> real,         // d * ln(age)
    cast: real -> real)           // f64 to f32

  /** `now.saturating_sub(t).max(1)` */
  function Age(now: nat, t: nat): nat {
    if now > t then now - t else 1
  }

  ghost predicate Positive(p: Decay) {
    forall a: nat :: a >= 1 ==> p.mass(a) > 0.0
  }

  ghost predicate Antitone(p: Decay) {
    forall a: nat, b: nat :: 1 <= a <= b ==> p.mass(b) <= p.mass(a)
  }

  /** The tail's mean lies between the masses at the ends of its range. */
  ghost predicate MeanBetween(p: Decay) {
    forall h: nat, l: nat :: 1 <= h < l ==> p.mass(l) <= Mean(p, h, l) <= p.mass(h)
  }

  /** The mean mass over the age range from `h` to `l`. */
  function Mean(p: Decay, h: nat, l: nat): real
    requires h < l
  {
    p.tailNum(h, l) / (l - h) as real
  }

  ghost predicate Monotone(f: real -> real) {
    forall x: real, y: real :: x <= y ==> f(x) <= f(y)
  }

  /** A logarithm has no value at 0 or below. */
  ghost predicate MonotoneOnPositive(f: real -> real) {
    forall x: real, y: real :: 0.0 < x <= y ==> f(x) <= f(y)
  }

  ghost predicate LogBounded(p: Decay, x: real, a: nat, y: real) {
    p.ln(y) <= p.ln(x) - p.penalty(a) + FOLGA_DO_LIMITE
  }

  ghost predicate PenaltyGrows(p: Decay) {
    forall a: nat, b: nat :: 1 <= a <= b ==> p.penalty(a) <= p.penalty(b)
  }

  /** Masses as the scorer uses them: what the record-level results need. */
  ghost predicate GoodMasses(p: Decay) {
    Positive(p) && Antitone(p) && MeanBetween(p)
  }

  /** `top` falls with age and is never below the masses nor the tail means that
      start at the same age. For most profiles it is the mass itself. */
  ghost predicate Envelope(p: Decay, top: nat -> real) {
    && (forall a: nat :: a >= 1 ==> 0.0 < p.mass(a) <= top(a))
    && (forall a: nat, b: nat :: 1 <= a <= b ==> top(b) <= top(a))
    && (forall h: nat, l: nat :: 1 <= h < l ==> Mean(p, h, l) <= top(h))
  }

  /** The logarithm of `x * top(a)` exceeds `ln x - d ln a` by no more than the
      slack, on the ages 64 bits can hold. */
  ghost predicate LogWithinSlack(p: Decay, top: nat -> real) {
    forall x: real, a: nat, y: real :: x >= 1.0 && 1 <= a <= U64_MAX && y == x * top(a) ==> LogBounded(p, x, a, y)
  }

  ghost predicate BoundedBy(p: Decay, top: nat -> real) {
    Envelope(p, top) && LogWithinSlack(p, top)
  }

  /** What the early stop of `top_k` needs. */
  ghost predicate Lawful(p: Decay) {
    MonotoneOnPositive(p.ln) && Monotone(p.cast) && PenaltyGrows(p) && exists top: nat -> real :: BoundedBy(p, top)
  }

  /** Good masses are their own envelope. */
  lemma MassesBound(p: Decay)
    requires GoodMasses(p) && MonotoneOnPositive(p.ln) && Monotone(p.cast) && PenaltyGrows(p) &&
             LogWithinSlack(p, p.mass)
    ensures Lawful(p)
  {
    assert BoundedBy(p, p.mass);
  }

  /** A logarithm on the positive reals. */
  ghost predicate IsLog(ln: real -> real) {
    && MonotoneOnPositive(ln)
    && (forall x: real, y: real :: x > 0.0 && y > 0.0 ==> Adds(ln, x, y))
    && (forall x: real :: x > 0.0 ==> ln(x) <= x - 1.0)
  }

  ghost predicate Adds(ln: real -> real, x: real, y: real) {
    ln(x * y) == ln(x) + ln(y)
  }

  ghost predicate Multiplies(pow: real -> real, x: real, y: real) {
    pow(x * y) == pow(x) * pow(y)
  }

  /** `pow` is `x^alpha` for the exponent `alpha = 1 - d` of the tail, which is
      below 1 and not 0: multiplicative, on the right side of its tangent at 1
      (Bernoulli's inequality), and turned into a factor by `ln`. */
  ghost predicate IsPower(pow: real -> real, alpha: real, ln: real -> real) {
    && alpha < 1.0 && alpha != 0.0
    && (forall x: real, y: real :: x > 0.0 && y > 0.0 ==> Multiplies(pow, x, y))
    && (forall x: real :: x > 0.0 ==> PowerAt(pow, alpha, ln, x))
  }

  ghost predicate PowerAt(pow: real -> real, alpha: real, ln: real -> real, x: real) {
    && pow(x) > 0.0
    && (if alpha > 0.0 then pow(x) - 1.0 <= alpha * (x - 1.0) else pow(x) - 1.0 >= alpha * (x - 1.0))
    && ln(pow(x)) == alpha * ln(x)
  }

  /** The profile of the generic branches: `x^(-d)` is `x^(1-d)/x`, and the tail
      integral is `(l^(1-d) - h^(1-d))/(1-d)`. */
  function PowerDecay(pow: real -> real, d: real, ln: real -> real, cast: real -> real): Decay
    requires d != 1.0
  {
    Decay(d,
          (a: nat) => if a == 0 then 0.0 else pow(a as real) / a as real,
          (h: nat, l: nat) => (pow(l as real) - pow(h as real)) / (1.0 - d),
          ln, (a: nat) => d * ln(a as real), cast)
  }

  /** The profile of the `d = 1` branch: `1/x` and `ln l - ln h`. */
  function HarmonicDecay(ln: real -> real, cast: real -> real): Decay {
    Decay(1.0,
          (a: nat) => if a == 0 then 0.0 else 1.0 / a as real,
          (h: nat, l: nat) => ln(l as real) - ln(h as real),
          ln, (a: nat) => 1.0 * ln(a as real), cast)
  }

  /** The profile of the `d = 0.5` fast path: `1/sqrt x` and `2(sqrt l - sqrt h)`. */
  function HalfDecay(sqrt: real -> real, ln: real -> real, cast: real -> real): Decay
    requires IsSqrt(sqrt)
  {
    Decay(1.0 / 2.0,
          (a: nat) => if a == 0 || sqrt(a as real) == 0.0 then 0.0 else 1.0 / sqrt(a as real),
          (h: nat, l: nat) => 2.0 * (sqrt(l as real) - sqrt(h as real)),
          ln, (a: nat) => (1.0 / 2.0) * ln(a as real), cast)
  }

  ghost predicate IsSqrt(sqrt: real -> real) {
    forall x: real :: x >= 0.0 ==> sqrt(x) >= 0.0 && sqrt(x) * sqrt(x) == x
  }

  lemma ScaleOrder(x: real, y: real, c: real)
    requires c > 0.0
    ensures x <= y <==> x * c <= y * c
  {}

  lemma DivideBy(x: real, c: real)
    requires c != 0.0
    ensures (x / c) * c == x
  {}

  lemma DivideProduct(x: real, y: real, c: real)
    requires c != 0.0
    ensures (x * y) / c == x * (y / c)
  {
    DivideBy(y, c);
    assert x * y == (x * (y / c)) * c;
  }

  lemma DivideOrder(u: real, w: real, c: real)
    requires c != 0.0 && if c > 0.0 then u <= c * w else u >= c * w
    ensures u / c <= w
  {
    var q := u / c;
    DivideBy(u, c);
    if c > 0.0 {
      ScaleOrder(q, w, c);
    } else {
      assert q * -c == -u && w * -c == -(c * w);
      ScaleOrder(q, w, -c);
    }
  }

  /** From the tangent bound at `y/x`: `(y^alpha - x^alpha)/alpha <= x^alpha/x * (y - x)`. */
  lemma ChordArith(px: real, py: real, pt: real, x: real, y: real, alpha: real)
    requires x > 0.0 && px > 0.0 && alpha != 0.0
    requires py == px * pt && (pt - 1.0) / alpha <= y / x - 1.0
    ensures (py - px) / alpha <= px / x * (y - x)
  {
    var t, m, q := y / x, px / x, (pt - 1.0) / alpha;
    DivideBy(y, x);
    assert py - px == px * (pt - 1.0);
    DivideProduct(px, pt - 1.0, alpha);
    assert y - x == x * (t - 1.0);
    DivideBy(px, x);
    assert m * (x * (t - 1.0)) == (m * x) * (t - 1.0);
    ScaleOrder(q, t - 1.0, px);
    assert (py - px) / alpha == q * px;
    assert m * (y - x) == (t - 1.0) * px;
  }

  lemma Ratio(x: real, y: real) returns (t: real)
    requires x > 0.0 && y > 0.0
    ensures t > 0.0 && x * t == y && t == y / x
  {
    t := y / x;
    DivideBy(y, x);
  }

  lemma Tangent(pow: real -> real, alpha: real, ln: real -> real, x: real)
    requires alpha != 0.0 && PowerAt(pow, alpha, ln, x)
    ensures (pow(x) - 1.0) / alpha <= x - 1.0
  {
    DivideOrder(pow(x) - 1.0, x - 1.0, alpha);
  }

  lemma DividedSpan(lo: real, hi: real, width: real, integral: real)
    requires width > 0.0 && lo * width <= integral <= hi * width
    ensures lo <= integral / width <= hi
  {
    DivideBy(integral, width);
    ScaleOrder(lo, integral / width, width);
    ScaleOrder(integral / width, hi, width);
  }

  /** The chord of `x^alpha` lies under its tangent at either end. */
  lemma Chord(pow: real -> real, alpha: real, ln: real -> real, x: real, y: real)
    requires IsPower(pow, alpha, ln) && x > 0.0 && y > 0.0
    ensures pow(x) > 0.0 && (pow(y) - pow(x)) / alpha <= pow(x) / x * (y - x)
  {
    var t := Ratio(x, y);
    assert Multiplies(pow, x, t);
    assert PowerAt(pow, alpha, ln, x) && PowerAt(pow, alpha, ln, t);
    Tangent(pow, alpha, ln, t);
    ChordArith(pow(x), pow(y), pow(t), x, y, alpha);
  }

  lemma PowerMeanBetween(pow: real -> real, d: real, ln: real -> real, cast: real -> real)
    requires IsPower(pow, 1.0 - d, ln)
    ensures MeanBetween(PowerDecay(pow, d, ln, cast))
  {
    var p, alpha := PowerDecay(pow, d, ln, cast), 1.0 - d;
    forall h: nat, l: nat | 1 <= h < l
      ensures p.mass(l) <= Mean(p, h, l) <= p.mass(h)
    {
      var x, y := h as real, l as real;
      Chord(pow, alpha, ln, x, y);
      Chord(pow, alpha, ln, y, x);
      Opposite(pow(x), pow(y), x, y, alpha);
      DividedSpan(pow(y) / y, pow(x) / x, y - x, (pow(y) - pow(x)) / alpha);
    }
  }

  lemma Opposite(px: real, py: real, x: real, y: real, alpha: real)
    requires alpha != 0.0 && y > 0.0
    requires (px - py) / alpha <= py / y * (x - y)
    ensures py / y * (y - x) <= (py - px) / alpha
  {
    DivideProduct(-1.0, py - px, alpha);
    var m := py / y;
    assert m * (x - y) == -(m * (y - x));
  }

  /** A mean between the end masses on every range forces the masses down. */
  lemma MeanForcesAntitone(p: Decay)
    requires MeanBetween(p)
    ensures Antitone(p)
  {
    forall a: nat, b: nat | 1 <= a <= b
      ensures p.mass(b) <= p.mass(a)
    {
      if a < b {
        assert p.mass(b) <= Mean(p, a, b) <= p.mass(a);
      }
    }
  }

  lemma LogOfMass(p: Decay, x: real, m: real, r: real, y: real)
    requires r > 0.0 && x > 0.0 && m > 0.0 && y == x * m && IsLog(p.ln)
    ensures p.ln(y) == p.ln(x) + p.ln(m * r) - p.ln(r)
  {
    assert Adds(p.ln, m, r) && Adds(p.ln, x, m);
  }

  lemma PowerLogBounded(pow: real -> real, d: real, ln: real -> real, cast: real -> real, x: real, a: nat, y: real)
    requires IsPower(pow, 1.0 - d, ln) && IsLog(ln) && x >= 1.0 && a >= 1
    requires y == x * PowerDecay(pow, d, ln, cast).mass(a)
    ensures LogBounded(PowerDecay(pow, d, ln, cast), x, a, y)
  {
    var r := a as real;
    assert PowerAt(pow, 1.0 - d, ln, r);
    var m := Quotient(pow(r), r);
    LogOfMass(PowerDecay(pow, d, ln, cast), x, m, r, y);
    LessOne(d, ln(r));
  }

  lemma LessOne(d: real, v: real)
    ensures (1.0 - d) * v == v - d * v
  {}

  lemma Quotient(x: real, y: real) returns (q: real)
    requires y > 0.0
    ensures q == x / y && q * y == x && (x > 0.0 ==> q > 0.0)
  {
    q := x / y;
  }

  lemma PowerPositive(pow: real -> real, d: real, ln: real -> real, cast: real -> real, a: nat)
    requires IsPower(pow, 1.0 - d, ln) && a >= 1
    ensures PowerDecay(pow, d, ln, cast).mass(a) > 0.0
  {
    assert PowerAt(pow, 1.0 - d, ln, a as real);
    var _ := Quotient(pow(a as real), a as real);
  }

  lemma ScaledLogGrows(ln: real -> real, d: real, a: nat, b: nat)
    requires MonotoneOnPositive(ln) && d > 0.0 && 1 <= a <= b
    ensures d * ln(a as real) <= d * ln(b as real)
  {
    ScaleOrder(ln(a as real), ln(b as real), d);
  }

  lemma PowerPenaltyGrows(pow: real -> real, d: real, ln: real -> real, cast: real -> real)
    requires d > 0.0 && d != 1.0 && MonotoneOnPositive(ln)
    ensures PenaltyGrows(PowerDecay(pow, d, ln, cast))
  {
    forall a: nat, b: nat | 1 <= a <= b
      ensures PowerDecay(pow, d, ln, cast).penalty(a) <= PowerDecay(pow, d, ln, cast).penalty(b)
    {
      ScaledLogGrows(ln, d, a, b);
    }
  }

  /** The generic branch: every `d > 0` other than 1. */
  lemma PowerDecayLawful(pow: real -> real, d: real, ln: real -> real, cast: real -> real)
    requires IsPower(pow, 1.0 - d, ln) && IsLog(ln) && Monotone(cast)
    ensures GoodMasses(PowerDecay(pow, d, ln, cast)) && Lawful(PowerDecay(pow, d, ln, cast))
    ensures LogWithinSlack(PowerDecay(pow, d, ln, cast), PowerDecay(pow, d, ln, cast).mass)
  {
    var p := PowerDecay(pow, d, ln, cast);
    PowerMeanBetween(pow, d, ln, cast);
    PowerPenaltyGrows(pow, d, ln, cast);
    MeanForcesAntitone(p);
    forall x: real, a: nat, y: real | x >= 1.0 && 1 <= a <= U64_MAX && y == x * p.mass(a)
      ensures LogBounded(p, x, a, y)
    {
      PowerLogBounded(pow, d, ln, cast, x, a, y);
    }
    forall a: nat | a >= 1
      ensures p.mass(a) > 0.0
    {
      PowerPositive(pow, d, ln, cast, a);
    }
    MassesBound(p);
  }

  lemma HarmonicMeanBetween(ln: real -> real, cast: real -> real)
    requires IsLog(ln)
    ensures MeanBetween(HarmonicDecay(ln, cast))
  {
    forall h: nat, l: nat | 1 <= h < l
      ensures var p := HarmonicDecay(ln, cast);
              p.mass(l) <= Mean(p, h, l) <= p.mass(h)
    {
      var x, y := h as real, l as real;
      LogChord(ln, x, y);
      LogChord(ln, y, x);
      Flip(1.0 / y, y, x);
      DividedSpan(1.0 / y, 1.0 / x, y - x, ln(y) - ln(x));
    }
  }

  lemma Flip(m: real, x: real, y: real)
    ensures m * (y - x) == -(m * (x - y))
  {}

  lemma HarmonicLogBounded(ln: real -> real, cast: real -> real, x: real, a: nat, y: real)
    requires IsLog(ln) && x >= 1.0 && a >= 1 && y == x * HarmonicDecay(ln, cast).mass(a)
    ensures LogBounded(HarmonicDecay(ln, cast), x, a, y)
  {
    var r := a as real;
    var m := Quotient(1.0, r);
    LogOfOne(ln);
    LogOfMass(HarmonicDecay(ln, cast), x, m, r, y);
  }

  /** The `d = 1` branch. */
  lemma HarmonicDecayLawful(ln: real -> real, cast: real -> real)
    requires IsLog(ln) && Monotone(cast)
    ensures GoodMasses(HarmonicDecay(ln, cast)) && Lawful(HarmonicDecay(ln, cast))
  {
    var p := HarmonicDecay(ln, cast);
    HarmonicMeanBetween(ln, cast);
    MeanForcesAntitone(p);
    forall x: real, a: nat, y: real | x >= 1.0 && 1 <= a <= U64_MAX && y == x * p.mass(a)
      ensures LogBounded(p, x, a, y)
    {
      HarmonicLogBounded(ln, cast, x, a, y);
    }
    forall a: nat | a >= 1
      ensures p.mass(a) > 0.0
    {
      var _ := Quotient(1.0, a as real);
    }
    MassesBound(p);
  }

  lemma LogOfOne(ln: real -> real)
    requires IsLog(ln)
    ensures ln(1.0) == 0.0
  {
    assert Adds(ln, 1.0, 1.0);
  }

  lemma LogChord(ln: real -> real, x: real, y: real)
    requires IsLog(ln) && x > 0.0 && y > 0.0
    ensures ln(y) - ln(x) <= (1.0 / x) * (y - x)
  {
    var t := Ratio(x, y);
    assert Adds(ln, x, t);
    UnitChord(x, y, t);
  }

  lemma UnitChord(x: real, y: real, t: real)
    requires x > 0.0 && x * t == y
    ensures (1.0 / x) * (y - x) == t - 1.0
  {
    var m := Quotient(1.0, x);
    assert y - x == x * (t - 1.0);
    assert m * (x * (t - 1.0)) == (m * x) * (t - 1.0);
  }

  /** The `d = 0.5` fast path computes the generic branch's numbers. */
  lemma HalfDecayLawful(sqrt: real -> real, ln: real -> real, cast: real -> real)
    requires IsSqrt(sqrt) && IsLog(ln) && Monotone(cast)
    ensures var half, generic := HalfDecay(sqrt, ln, cast), PowerDecay(sqrt, 1.0 / 2.0, ln, cast);
            && (forall a: nat :: a >= 1 ==> half.mass(a) == generic.mass(a))
            && (forall h: nat, l: nat :: half.tailNum(h, l) == generic.tailNum(h, l))
            && GoodMasses(half) && Lawful(half)
  {
    var half, generic := HalfDecay(sqrt, ln, cast), PowerDecay(sqrt, 1.0 / 2.0, ln, cast);
    SqrtIsPower(sqrt, ln);
    PowerDecayLawful(sqrt, 1.0 / 2.0, ln, cast);
    forall a: nat | a >= 1
      ensures half.mass(a) == generic.mass(a)
    {
      SqrtPositive(sqrt, a as real);
      InverseOfRoot(sqrt(a as real), a as real);
    }
    SameNumbers(generic, half);
  }

  lemma SameNumbers(p: Decay, q: Decay)
    requires GoodMasses(p) && Lawful(p) && LogWithinSlack(p, p.mass) && p.ln == q.ln && p.cast == q.cast
    requires forall a: nat :: a >= 1 ==> q.mass(a) == p.mass(a)
    requires forall a: nat :: q.penalty(a) == p.penalty(a)
    requires forall h: nat, l: nat :: q.tailNum(h, l) == p.tailNum(h, l)
    ensures GoodMasses(q) && Lawful(q)
  {
    SameMean(p, q);
    forall x: real, a: nat, y: real | x >= 1.0 && 1 <= a <= U64_MAX && y == x * q.mass(a)
      ensures LogBounded(q, x, a, y)
    {
      assert LogBounded(p, x, a, y);
    }
    MassesBound(q);
  }

  lemma SameMean(p: Decay, q: Decay)
    requires MeanBetween(p)
    requires forall a: nat :: a >= 1 ==> q.mass(a) == p.mass(a)
    requires forall h: nat, l: nat :: q.tailNum(h, l) == p.tailNum(h, l)
    ensures MeanBetween(q)
  {
    forall h: nat, l: nat | 1 <= h < l
      ensures q.mass(l) <= Mean(q, h, l) <= q.mass(h)
    {
      assert p.mass(l) <= Mean(p, h, l) <= p.mass(h);
    }
  }

  lemma InverseOfRoot(s: real, x: real)
    requires s > 0.0 && x > 0.0 && s * s == x
    ensures 1.0 / s == s / x
  {
    var u := Quotient(1.0, s);
    var v := Quotient(s, x);
    Reassociate(v, s);
    Cancel(v * s, 1.0, s);
    Cancel(v, u, s);
  }

  lemma Reassociate(v: real, s: real)
    ensures (v * s) * s == v * (s * s)
  {}

  lemma Cancel(x: real, y: real, c: real)
    requires c > 0.0 && x * c == y * c
    ensures x == y
  {}

  lemma SqrtPositive(sqrt: real -> real, x: real)
    requires IsSqrt(sqrt) && x > 0.0
    ensures sqrt(x) > 0.0
  {
    assert sqrt(x) == 0.0 ==> sqrt(x) * sqrt(x) == 0.0;
  }

  lemma SameSquare(x: real, y: real)
    requires x > 0.0 && y > 0.0 && x * x == y * y
    ensures x == y
  {
    assert (x - y) * (x + y) == 0.0;
  }

  lemma HalfTangent(u: real, x: real)
    requires u * u == x
    ensures u - 1.0 <= (1.0 / 2.0) * (x - 1.0)
  {
    assert (u - 1.0) * (u - 1.0) == u * u - 2.0 * u + 1.0;
  }

  lemma HalfLog(u: real, x: real)
    requires u + u == x
    ensures u == (1.0 / 2.0) * x
  {}

  lemma SqrtIsPower(sqrt: real -> real, ln: real -> real)
    requires IsSqrt(sqrt) && IsLog(ln)
    ensures IsPower(sqrt, 1.0 / 2.0, ln)
  {
    forall x: real, y: real | x > 0.0 && y > 0.0
      ensures Multiplies(sqrt, x, y)
    {
      var u, v, w := sqrt(x), sqrt(y), sqrt(x * y);
      SqrtPositive(sqrt, x);
      SqrtPositive(sqrt, y);
      SqrtPositive(sqrt, x * y);
      assert (u * v) * (u * v) == (u * u) * (v * v);
      SameSquare(u * v, w);
    }
    forall x: real {:trigger PowerAt(sqrt, 1.0 / 2.0, ln, x)} | x > 0.0
      ensures PowerAt(sqrt, 1.0 / 2.0, ln, x)
    {
      var u := sqrt(x);
      SqrtPositive(sqrt, x);
      HalfTangent(u, x);
      assert Adds(ln, u, u);
      HalfLog(ln(u), ln(x));
    }
  }

  // ---- `d` near 1 ----------------------------------------------------------

  /** The profile when `d` is not 1 but within 1e-12 of it: the mass is still
      `x^(-d)`, the tail integral already `ln l - ln h`. */
  function NearOneDecay(pow: real -> real, d: real, ln: real -> real, cast: real -> real): Decay {
    Decay(d,
          (a: nat) => if a == 0 then 0.0 else pow(a as real) / a as real,
          (h: nat, l: nat) => ln(l as real) - ln(h as real),
          ln, (a: nat) => d * ln(a as real), cast)
  }

  const NEAR: real := 0.000000000001

  /** Above 1 a power is at least 1 for a positive exponent and at most 1 for a negative one. */
  lemma PowerSide(pow: real -> real, alpha: real, ln: real -> real, x: real)
    requires IsPower(pow, alpha, ln) && IsLog(ln) && x >= 1.0
    ensures if alpha > 0.0 then pow(x) >= 1.0 else pow(x) <= 1.0
  {
    assert PowerAt(pow, alpha, ln, x);
    LogOfOne(ln);
    ProductSign(alpha, ln(x));
    if alpha < 0.0 {
      InverseAtLeastOne(ln, pow(x));
    }
  }

  lemma ProductSign(a: real, v: real)
    requires v >= 0.0
    ensures if a > 0.0 then a * v >= 0.0 else a * v <= 0.0
  {}

  lemma InverseAtLeastOne(ln: real -> real, u: real)
    requires IsLog(ln) && u > 0.0 && ln(u) <= 0.0
    ensures u <= 1.0
  {
    var v := Quotient(1.0, u);
    assert Adds(ln, v, u);
    LogOfOne(ln);
    if u > 1.0 {
      ScaleOrder(1.0, u, v);
    }
  }

  /** A number up to 2^64 has a logarithm of at most 64. */
  lemma LogOfAge(ln: real -> real, a: nat)
    requires IsLog(ln) && 1 <= a <= U64_MAX
    ensures 0.0 <= ln(a as real) <= 64.0
  {
    LogOfOne(ln);
    assert Adds(ln, 2.0, 2.0) && Adds(ln, 4.0, 4.0) && Adds(ln, 16.0, 16.0) && Adds(ln, 256.0, 256.0);
    assert Adds(ln, 65536.0, 65536.0) && Adds(ln, 4294967296.0, 4294967296.0);
    assert a as real <= 18446744073709551616.0;
  }

  lemma NearSlack(d: real, v: real)
    requires d - 1.0 < NEAR && 0.0 <= v <= 64.0
    ensures v - d * v >= -FOLGA_DO_LIMITE
  {
    LessOne(d, v);
    SmallProduct(d - 1.0, v);
    Negated(d - 1.0, v);
  }

  lemma Negated(e: real, v: real)
    ensures (-e) * v == -(e * v)
  {}

  lemma SmallProduct(e: real, v: real)
    requires e < NEAR && 0.0 <= v <= 64.0
    ensures e * v <= FOLGA_DO_LIMITE
  {
    if e > 0.0 {
      ScaleOrder(v, 64.0, e);
    } else {
      NotPositive(e, v);
    }
  }

  lemma NotPositive(e: real, v: real)
    requires v >= 0.0 && e <= 0.0
    ensures e * v <= 0.0
  {}

  /** `x/a` has the logarithm `ln x - ln a`, which near `d = 1` the slack covers. */
  lemma NearLogBounded(pow: real -> real, d: real, ln: real -> real, cast: real -> real, x: real, a: nat, y: real)
    requires IsLog(ln) && d - 1.0 < NEAR && x >= 1.0 && 1 <= a <= U64_MAX && y == x * HarmonicDecay(ln, cast).mass(a)
    ensures LogBounded(NearOneDecay(pow, d, ln, cast), x, a, y)
  {
    var r := a as real;
    var m := Quotient(1.0, r);
    LogOfOne(ln);
    LogOfMass(HarmonicDecay(ln, cast), x, m, r, y);
    LogOfAge(ln, a);
    NearSlack(d, ln(r));
  }

  lemma QuotientOrder(x: real, y: real, c: real)
    requires c > 0.0 && x <= y
    ensures x / c <= y / c
  {
    DivideBy(x, c);
    DivideBy(y, c);
    ScaleOrder(x / c, y / c, c);
  }

  lemma MassSide(pow: real -> real, d: real, ln: real -> real, cast: real -> real, a: nat)
    requires IsPower(pow, 1.0 - d, ln) && IsLog(ln) && a >= 1
    ensures if d < 1.0 then HarmonicDecay(ln, cast).mass(a) <= PowerDecay(pow, d, ln, cast).mass(a)
            else PowerDecay(pow, d, ln, cast).mass(a) <= HarmonicDecay(ln, cast).mass(a)
  {
    PowerSide(pow, 1.0 - d, ln, a as real);
    if d < 1.0 {
      QuotientOrder(1.0, pow(a as real), a as real);
    } else {
      QuotientOrder(pow(a as real), 1.0, a as real);
    }
  }

  /** `q` has the masses and penalties of `p` and the tail of `tail`. */
  ghost predicate Mixes(q: Decay, p: Decay, tail: Decay) {
    && q.ln == p.ln && q.cast == p.cast
    && (forall a: nat :: q.mass(a) == p.mass(a))
    && (forall a: nat :: q.penalty(a) == p.penalty(a))
    && (forall h: nat, l: nat :: q.tailNum(h, l) == tail.tailNum(h, l))
  }

  lemma MixedMean(q: Decay, p: Decay, tail: Decay, h: nat, l: nat)
    requires Mixes(q, p, tail) && MeanBetween(tail) && 1 <= h < l
    ensures Mean(q, h, l) <= tail.mass(h)
  {
    assert Mean(tail, h, l) <= tail.mass(h);
  }

  /** A tail mean below the masses leaves them their own envelope. */
  lemma MixedBelow(q: Decay, p: Decay, tail: Decay)
    requires Mixes(q, p, tail) && GoodMasses(p) && LogWithinSlack(p, p.mass) && MeanBetween(tail)
    requires forall a: nat :: a >= 1 ==> tail.mass(a) <= p.mass(a)
    ensures BoundedBy(q, p.mass)
  {
    forall h: nat, l: nat | 1 <= h < l
      ensures Mean(q, h, l) <= p.mass(h)
    {
      MixedMean(q, p, tail, h, l);
    }
    forall x: real, a: nat, y: real | x >= 1.0 && 1 <= a <= U64_MAX && y == x * p.mass(a)
      ensures LogBounded(q, x, a, y)
    {
      assert LogBounded(p, x, a, y);
    }
  }

  /** Masses below those of the tail have these as their envelope. */
  lemma MixedAbove(q: Decay, p: Decay, tail: Decay)
    requires Mixes(q, p, tail) && Positive(p) && GoodMasses(tail) && LogWithinSlack(q, tail.mass)
    requires forall a: nat :: a >= 1 ==> p.mass(a) <= tail.mass(a)
    ensures BoundedBy(q, tail.mass)
  {
    forall h: nat, l: nat | 1 <= h < l
      ensures Mean(q, h, l) <= tail.mass(h)
    {
      MixedMean(q, p, tail, h, l);
    }
    forall a: nat | a >= 1
      ensures 0.0 < q.mass(a) <= tail.mass(a)
    {
      assert p.mass(a) > 0.0;
    }
  }

  /** The branch near 1 mixes the two closed forms, so its mean may leave the range
      of its masses; the slack absorbs what that adds to the bound. */
  lemma NearOneDecayLawful(pow: real -> real, d: real, ln: real -> real, cast: real -> real)
    requires IsPower(pow, 1.0 - d, ln) && IsLog(ln) && Monotone(cast) && 1.0 - NEAR < d < 1.0 + NEAR
    ensures Lawful(NearOneDecay(pow, d, ln, cast))
  {
    var q, p, tail := NearOneDecay(pow, d, ln, cast), PowerDecay(pow, d, ln, cast), HarmonicDecay(ln, cast);
    PowerDecayLawful(pow, d, ln, cast);
    HarmonicDecayLawful(ln, cast);
    NearMixes(pow, d, ln, cast);
    MixedPenalty(q, p, tail);
    forall a: nat | a >= 1
      ensures if d < 1.0 then tail.mass(a) <= p.mass(a) else p.mass(a) <= tail.mass(a)
    {
      MassSide(pow, d, ln, cast, a);
    }
    if d < 1.0 {
      MixedBelow(q, p, tail);
    } else {
      NearWithinSlack(pow, d, ln, cast);
      MixedAbove(q, p, tail);
    }
  }

  lemma NearMixes(pow: real -> real, d: real, ln: real -> real, cast: real -> real)
    requires d != 1.0
    ensures Mixes(NearOneDecay(pow, d, ln, cast), PowerDecay(pow, d, ln, cast), HarmonicDecay(ln, cast))
  {}

  lemma MixedPenalty(q: Decay, p: Decay, tail: Decay)
    requires Mixes(q, p, tail) && PenaltyGrows(p)
    ensures PenaltyGrows(q)
  {}

  lemma NearWithinSlack(pow: real -> real, d: real, ln: real -> real, cast: real -> real)
    requires IsLog(ln) && d - 1.0 < NEAR
    ensures LogWithinSlack(NearOneDecay(pow, d, ln, cast), HarmonicDecay(ln, cast).mass)
  {
    forall x: real, a: nat, y: real | x >= 1.0 && 1 <= a <= U64_MAX && y == x * HarmonicDecay(ln, cast).mass(a)
      ensures LogBounded(NearOneDecay(pow, d, ln, cast), x, a, y)
    {
      NearLogBounded(pow, d, ln, cast, x, a, y);
    }
  }
}
