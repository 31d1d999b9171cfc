/** A profile that can be written down in full and meets the laws of the early
    stop: masses that halve and penalties that grow by 1 with each octave of age. */
module OctaveDecays {
  import opened Numbers
  import opened Decays
  import opened ActivationRecords

  function Half(k: nat): (x: real)
    ensures 0.0 < x <= 1.0
  {
    if k == 0 then 1.0 else Half(k - 1) / 2.0
  }

  /** The base-2 logarithm of a positive number, rounded down. */
  function Octave(x: real): int
    requires x > 0.0
    decreases Steps(x)
  {
    if x >= 2.0 then 1 + Octave(x / 2.0)
    else if x >= 1.0 then 0
    else
      DoublingSteps(x);
      Octave(2.0 * x) - 1
  }

  function Steps(x: real): nat
    requires x > 0.0
  {
    if x >= 1.0 then x.Floor - 1 else Inverse(x).Floor
  }

  function Inverse(x: real): (y: real)
    requires x > 0.0
    ensures y > 0.0 && x * y == 1.0
  {
    1.0 / x
  }

  lemma DoublingSteps(x: real)
    requires 0.0 < x < 1.0
    ensures Steps(2.0 * x) < Steps(x)
  {
    var y := Inverse(x);
    AboveOne(x, y);
    if 2.0 * x < 1.0 {
      var z := Inverse(2.0 * x);
      HalfInverse(x, y, z);
    }
  }

  lemma AboveOne(x: real, y: real)
    requires 0.0 < x < 1.0 && y > 0.0 && x * y == 1.0
    ensures y > 1.0
  {
    if y <= 1.0 {
      ProductOrder(x, y, 1.0);
    }
  }

  lemma HalfInverse(x: real, y: real, z: real)
    requires x > 0.0 && x * y == 1.0 && 2.0 * x * z == 1.0
    ensures y == 2.0 * z
  {
    assert x * (2.0 * z) == 1.0;
    Cancel(y, 2.0 * z, x);
  }

  /** Halving a number lowers its octave by 1. */
  lemma OctaveOfHalf(x: real)
    requires x > 0.0
    ensures Octave(x / 2.0) == Octave(x) - 1
  {
    if x < 2.0 {
      assert 2.0 * (x / 2.0) == x;
    }
  }

  lemma {:induction false} OctaveSign(x: real)
    requires x > 0.0
    ensures x >= 1.0 ==> Octave(x) >= 0
    ensures x < 2.0 ==> Octave(x) <= 0
    decreases Steps(x)
  {
    if x >= 2.0 {
      OctaveSign(x / 2.0);
    } else if x < 1.0 {
      DoublingSteps(x);
      OctaveSign(2.0 * x);
    }
  }

  lemma {:induction false} OctaveMonotone(x: real, y: real)
    requires 0.0 < x <= y
    ensures Octave(x) <= Octave(y)
    decreases Steps(x)
  {
    if x >= 2.0 {
      OctaveMonotone(x / 2.0, y / 2.0);
    } else if y < 1.0 {
      DoublingSteps(x);
      OctaveMonotone(2.0 * x, 2.0 * y);
    } else {
      OctaveSign(x);
      OctaveSign(y);
    }
  }

  lemma {:induction false} OctaveScales(x: real, k: nat, y: real)
    requires x > 0.0 && y == x * Half(k)
    ensures y > 0.0 && Octave(y) == Octave(x) - k
  {
    if k == 0 {
      assert y == x;
    } else {
      var h := Half(k - 1);
      var z := x * h;
      OctaveScales(x, k - 1, z);
      HalvedProduct(x, h, Half(k), z, y);
      OctaveOfHalf(z);
    }
  }

  lemma HalvedProduct(x: real, h: real, g: real, z: real, y: real)
    requires g == h / 2.0 && z == x * h && y == x * g
    ensures y == z / 2.0
  {}

  function Log(x: real): real {
    if x > 0.0 then Octave(x) as real else 0.0
  }

  function Mass(a: nat): real {
    if a == 0 then 1.0 else Half(FloorLog2(a))
  }

  function Profile(): Decay {
    Decay(1.0, Mass, (h: nat, l: nat) => if h < l then Mass(l) * (l - h) as real else 0.0, Log,
          (a: nat) => if a == 0 then 0.0 else FloorLog2(a) as real, (x: real) => x)
  }

  lemma {:induction false} FloorLog2Monotone(a: nat, b: nat)
    requires 1 <= a <= b
    ensures FloorLog2(a) <= FloorLog2(b)
  {
    if a > 1 {
      FloorLog2Monotone(a / 2, b / 2);
    }
  }

  lemma {:induction false} HalfAntitone(j: nat, k: nat)
    requires j <= k
    ensures Half(k) <= Half(j)
  {
    if j < k {
      HalfAntitone(j, k - 1);
    }
  }

  lemma MassAntitone(a: nat, b: nat)
    requires 1 <= a <= b
    ensures Mass(b) <= Mass(a)
  {
    FloorLog2Monotone(a, b);
    HalfAntitone(FloorLog2(a), FloorLog2(b));
  }

  lemma MeanIsFarMass(h: nat, l: nat)
    requires h < l
    ensures Mean(Profile(), h, l) == Mass(l)
  {
    MeanIs(Profile(), h, l, Mass(l));
  }

  lemma MeanIs(p: Decay, h: nat, l: nat, m: real)
    requires h < l && p.tailNum(h, l) == m * (l - h) as real
    ensures Mean(p, h, l) == m
  {
    DividedProduct(m, (l - h) as real);
  }

  lemma LogOfScaled(x: real, a: nat, y: real)
    requires x >= 1.0 && a >= 1 && y == x * Mass(a)
    ensures LogBounded(Profile(), x, a, y)
  {
    OctaveScales(x, FloorLog2(a), y);
  }

  lemma DividedProduct(x: real, c: real)
    requires c > 0.0
    ensures (x * c) / c == x
  {
    DivideBy(x * c, c);
    Cancel((x * c) / c, x, c);
  }

  lemma {:induction false} FloorLog2OfPow2(k: nat)
    ensures FloorLog2(Pow2(k)) == k
  {
    if k > 0 {
      FloorLog2OfPow2(k - 1);
    }
  }

  /** The laws have a model, with good masses and a penalty that grows without end. */
  lemma LawsAreMet()
    ensures GoodMasses(Profile()) && Lawful(Profile())
    ensures forall k: nat :: Profile().penalty(Pow2(k)) == k as real
  {
    var p := Profile();
    forall h: nat, l: nat | 1 <= h < l
      ensures p.mass(l) <= Mean(p, h, l) <= p.mass(h)
    {
      MeanIsFarMass(h, l);
      MassAntitone(h, l);
    }
    MeanForcesAntitone(p);
    forall x: real, y: real | 0.0 < x <= y
      ensures p.ln(x) <= p.ln(y)
    {
      OctaveMonotone(x, y);
    }
    forall a: nat, b: nat | 1 <= a <= b
      ensures p.penalty(a) <= p.penalty(b)
    {
      FloorLog2Monotone(a, b);
    }
    forall x: real, a: nat, y: real | x >= 1.0 && 1 <= a <= U64_MAX && y == x * p.mass(a)
      ensures LogBounded(p, x, a, y)
    {
      LogOfScaled(x, a, y);
    }
    MassesBound(p);
    forall k: nat
      ensures p.penalty(Pow2(k)) == k as real
    {
      FloorLog2OfPow2(k);
    }
  }
}
