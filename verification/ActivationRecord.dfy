/** One item's access record: an 8-slot circular buffer of the latest access
    times plus a closed-form tail for the older ones. `Record` is the record's
    value; the class further down updates it in place as the source does. */
module ActivationRecords {
  import opened Wrappers
  import opened Decays
  import opened Numbers

  const RECENT_K: nat := 8
  type u64 = n: nat | n <= U64_MAX

  datatype Record = Record(recent: seq<nat>, proximoSlot: nat, n: nat, firstAccess: nat) {
    /** What the fixed-capacity buffer and the modulo on the slot guarantee. */
    predicate WellSized() {
      |recent| <= RECENT_K && proximoSlot < RECENT_K && n <= U64_MAX
    }

    predicate Full() {
      |recent| == RECENT_K
    }

    function Access(now: nat): Record
      requires WellSized()
    {
      Record(if Full() then recent[proximoSlot := now] else recent + [now],
             if Full() then (proximoSlot + 1) % RECENT_K else proximoSlot,
             n + 1,
             if n == 0 then now else firstAccess)
    }

    /** The oldest access still held. */
    function MaisAntigo(): Option<nat>
      requires WellSized()
    {
      if Full() then Some(recent[proximoSlot])
      else if |recent| > 0 then Some(recent[0]) else None
    }

    /** The newest instant that counts for the score. */
    function TRef(): nat {
      if |recent| > 0 then Max(MaxOf(recent), firstAccess) else firstAccess
    }

    /** Where the record lives in the index of `top_k`. */
    function ChaveDeIndice(): (nat, nat) {
      (if n == 0 then 0 else FloorLog2(n), TRef())
    }

    function RawSum(p: Decay, now: nat): real
      requires WellSized()
    {
      var oldest := match MaisAntigo() case Some(t) => t case None => now;
      Mass(p, recent, n, firstAccess, oldest, now)
    }

    function Score(p: Decay, now: nat): real
      requires WellSized()
    {
      p.cast(p.ln(RawSum(p, now)))
    }
  }

  const EMPTY: Record := Record([], 0, 0, 0)

  function MaxOf(s: seq<nat>): nat
    requires |s| > 0
  {
    if |s| == 1 then s[0] else Max(MaxOf(s[..|s| - 1]), s[|s| - 1])
  }

  lemma {:induction false} MaxOfIsGreatest(s: seq<nat>)
    requires |s| > 0
    ensures MaxOf(s) in s && forall t :: t in s ==> t <= MaxOf(s)
  {
    assert s == s[..|s| - 1] + [s[|s| - 1]];
    if |s| > 1 {
      MaxOfIsGreatest(s[..|s| - 1]);
    }
  }

  function Pow2(b: nat): (r: nat)
    ensures r >= 1
  {
    if b == 0 then 1 else 2 * Pow2(b - 1)
  }

  /** `63 - n.leading_zeros()`: the position of the highest set bit. */
  function FloorLog2(n: nat): nat
    requires n >= 1
  {
    if n == 1 then 0 else 1 + FloorLog2(n / 2)
  }

  lemma {:induction false} FloorLog2Brackets(n: nat)
    requires n >= 1
    ensures Pow2(FloorLog2(n)) <= n < Pow2(FloorLog2(n) + 1)
  {
    if n > 1 {
      FloorLog2Brackets(n / 2);
    }
  }

  function SumMass(p: Decay, times: seq<nat>, now: nat): real {
    if times == [] then 0.0
    else SumMass(p, times[..|times| - 1], now) + p.mass(Age(now, times[|times| - 1]))
  }

  /** The ends `(h, l)` of the age range the tail is spread over. */
  function TailRange(first: nat, oldest: nat, now: nat): (r: (nat, nat))
    ensures 1 <= r.0 < r.1
  {
    var life, held := Age(now, first), Age(now, oldest);
    (Min(held, life), Max(life, held + 1))
  }

  /** The closed-form stand-in for `m` older accesses. */
  function Tail(p: Decay, m: nat, first: nat, oldest: nat, now: nat): real {
    var (h, l) := TailRange(first, oldest, now);
    var tail := m as real * Mean(p, h, l);
    if tail > 0.0 then tail else 0.0
  }

  /** The activation mass of `n` accesses of which `times` are held. */
  function Mass(p: Decay, times: seq<nat>, n: nat, first: nat, oldest: nat, now: nat): real {
    if n == 0 then 0.0
    else if n > |times| then SumMass(p, times, now) + Tail(p, n - |times|, first, oldest, now)
    else SumMass(p, times, now)
  }

  /** The tail with its ages in plain numbers: from the age of the oldest access held
      to that of the first, put in order and at least 1 apart. */
  lemma TailWrittenOut(p: Decay, m: nat, first: nat, oldest: nat, now: nat)
    ensures var held := if oldest < now then now - oldest else 1;
            var life := if first < now then now - first else 1;
            var h := if held <= life then held else life;
            var l := if life > held then life else held + 1;
            var tail := m as real * (p.tailNum(h, l) / (l - h) as real);
            Tail(p, m, first, oldest, now) == if tail > 0.0 then tail else 0.0
  {}

  // ---- bounds ------------------------------------------------------------

  /** `n * x`, as a repeated sum. */
  ghost function Times(n: nat, x: real): real {
    if n == 0 then 0.0 else Times(n - 1, x) + x
  }

  lemma {:induction false} TimesIsProduct(n: nat, x: real)
    ensures Times(n, x) == n as real * x
  {
    if n > 0 {
      TimesIsProduct(n - 1, x);
    }
  }

  lemma {:induction false} TimesAdd(m: nat, n: nat, x: real)
    ensures Times(m + n, x) == Times(m, x) + Times(n, x)
  {
    if n > 0 {
      TimesAdd(m, n - 1, x);
    }
  }

  lemma {:induction false} TimesOrder(m: nat, n: nat, x: real, y: real)
    requires m <= n && x <= y && 0.0 <= y
    ensures Times(m, x) <= Times(n, y)
  {
    if m > 0 {
      TimesOrder(m - 1, n - 1, x, y);
    } else if n > 0 {
      TimesOrder(m, n - 1, x, y);
    }
  }

  lemma AgeAntitone(now: nat, s: nat, t: nat)
    requires s <= t
    ensures 1 <= Age(now, t) <= Age(now, s)
  {}

  /** A sum of masses lies between as many copies of the masses at the ages of
      any two times around its own. */
  lemma {:induction false} SumMassBounds(p: Decay, times: seq<nat>, lo: nat, hi: nat, now: nat)
    requires GoodMasses(p) && forall t :: t in times ==> lo <= t <= hi
    ensures Times(|times|, p.mass(Age(now, lo))) <= SumMass(p, times, now) <= Times(|times|, p.mass(Age(now, hi)))
  {
    if times != [] {
      var front, t := times[..|times| - 1], times[|times| - 1];
      assert t in times && forall x :: x in front ==> x in times;
      SumMassBounds(p, front, lo, hi, now);
      AgeAntitone(now, lo, t);
      AgeAntitone(now, t, hi);
    }
  }

  lemma ProductOrder(m: real, x: real, y: real)
    requires m >= 0.0 && x <= y
    ensures m * x <= m * y
  {}

  /** The tail is never negative and lies between as many copies of the masses
      at the ends of its age range. */
  lemma TailBounds(p: Decay, m: nat, first: nat, oldest: nat, now: nat)
    requires GoodMasses(p)
    ensures var (h, l) := TailRange(first, oldest, now);
            Times(m, p.mass(l)) <= Tail(p, m, first, oldest, now) <= Times(m, p.mass(h))
  {
    var (h, l) := TailRange(first, oldest, now);
    TimesIsProduct(m, p.mass(l));
    TimesIsProduct(m, p.mass(h));
    ProductOrder(m as real, p.mass(l), Mean(p, h, l));
    ProductOrder(m as real, Mean(p, h, l), p.mass(h));
    ProductOrder(m as real, 0.0, p.mass(h));
  }

  /** The newest instant is one of the record's times, and none is later. */
  lemma TRefIsNewest(r: Record)
    ensures r.firstAccess <= r.TRef() && forall t :: t in r.recent ==> t <= r.TRef()
    ensures r.TRef() in r.recent || r.TRef() == r.firstAccess
  {
    if |r.recent| > 0 {
      MaxOfIsGreatest(r.recent);
    }
  }

  /** What every record with an access satisfies: it holds some of its times. */
  predicate Sane(r: Record) {
    r.WellSized() && 1 <= |r.recent| <= r.n
  }

  /** Masses and tail stay below copies of the envelope at the age of any time
      not before their own. */
  lemma {:induction false} SumMassBelow(p: Decay, top: nat -> real, times: seq<nat>, hi: nat, now: nat)
    requires Envelope(p, top) && forall t :: t in times ==> t <= hi
    ensures SumMass(p, times, now) <= Times(|times|, top(Age(now, hi)))
    ensures times != [] ==> SumMass(p, times, now) > 0.0
  {
    if times != [] {
      var front, t := times[..|times| - 1], times[|times| - 1];
      assert t in times && forall x :: x in front ==> x in times;
      SumMassBelow(p, top, front, hi, now);
      AgeAntitone(now, t, hi);
    }
  }

  lemma TailBelow(p: Decay, top: nat -> real, m: nat, first: nat, oldest: nat, hi: nat, now: nat)
    requires Envelope(p, top) && first <= hi && oldest <= hi
    ensures 0.0 <= Tail(p, m, first, oldest, now) <= Times(m, top(Age(now, hi)))
  {
    var (h, l) := TailRange(first, oldest, now);
    AgeAntitone(now, first, hi);
    AgeAntitone(now, oldest, hi);
    assert 0.0 < p.mass(h) <= top(h) && top(h) <= top(Age(now, hi));
    ProductOrder(m as real, Mean(p, h, l), top(Age(now, hi)));
    ProductOrder(m as real, 0.0, top(Age(now, hi)));
    TimesIsProduct(m, top(Age(now, hi)));
  }

  /** The score's mass, tail included, is positive and at most `n` times the
      envelope at the age of the newest instant, whatever the order of the
      accesses and of `now`. */
  lemma MassBound(p: Decay, top: nat -> real, r: Record, now: nat)
    requires Envelope(p, top) && Sane(r)
    ensures 0.0 < r.RawSum(p, now) <= Times(r.n, top(Age(now, r.TRef())))
  {
    TRefIsNewest(r);
    SumMassBelow(p, top, r.recent, r.TRef(), now);
    var m, oldest := r.n - |r.recent|, r.MaisAntigo().value;
    assert oldest in r.recent;
    TailBelow(p, top, m, r.firstAccess, oldest, r.TRef(), now);
    TimesAdd(|r.recent|, m, top(Age(now, r.TRef())));
  }

  lemma MassesAreEnvelope(p: Decay)
    requires GoodMasses(p)
    ensures Envelope(p, p.mass)
  {}

  // ---- which records the bound holds for -----------------------------------

  /** The bound of the index, at every instant. */
  ghost predicate AlwaysBounded(p: Decay, r: Record)
    requires r.WellSized()
  {
    forall now: nat :: BoundedAt(p, r, now)
  }

  ghost predicate BoundedAt(p: Decay, r: Record, now: nat)
    requires r.WellSized()
  {
    r.RawSum(p, now) <= Times(r.n, p.mass(Age(now, r.TRef())))
  }

  /** No mean from age 1 exceeds the mass at its far end: nothing decays. */
  ghost predicate Flat(p: Decay) {
    forall l: nat :: l >= 2 ==> MeanAtFloor(p, l)
  }

  ghost predicate MeanAtFloor(p: Decay, l: nat)
    requires l >= 2
  {
    Mean(p, 1, l) <= p.mass(l)
  }

  /** At instant 0 every time has age 1. */
  lemma {:induction false} SumMassAtZero(p: Decay, times: seq<nat>)
    ensures SumMass(p, times, 0) == Times(|times|, p.mass(1))
  {
    if times != [] {
      SumMassAtZero(p, times[..|times| - 1]);
    }
  }

  lemma {:induction false} TimesStrict(m: nat, n: nat, x: real)
    requires m < n && x > 0.0
    ensures Times(m, x) < Times(n, x)
  {
    if m < n - 1 {
      TimesStrict(m, n - 1, x);
    }
  }

  /** More times than accesses escape the bound at instant 0. */
  lemma TooManyTimes(p: Decay, r: Record)
    requires GoodMasses(p) && r.WellSized() && 1 <= r.n < |r.recent|
    ensures !BoundedAt(p, r, 0)
  {
    SumMassAtZero(p, r.recent);
    assert p.mass(1) > 0.0;
    TimesStrict(r.n, |r.recent|, p.mass(1));
  }

  /** With accesses but no time at all, the tail starts at age 1. */
  lemma NoTimes(p: Decay, r: Record, now: nat)
    requires GoodMasses(p) && r.WellSized() && r.n >= 1 && r.recent == []
    ensures var life := Age(now, r.firstAccess);
            BoundedAt(p, r, now) <==> life == 1 || MeanAtFloor(p, life)
  {
    var life := Age(now, r.firstAccess);
    var l := Max(life, 2);
    assert TailRange(r.firstAccess, now, now) == (1, l);
    var mean := Mean(p, 1, l);
    assert p.mass(l) > 0.0 && p.mass(l) <= mean <= p.mass(1);
    ProductOrder(r.n as real, 0.0, mean);
    TimesIsProduct(r.n, mean);
    TimesIsProduct(r.n, p.mass(life));
    assert SumMass(p, r.recent, now) == 0.0;
    assert r.RawSum(p, now) == Times(r.n, mean);
    TimesCompare(r.n, mean, p.mass(life));
  }

  lemma {:induction false} TimesCompare(n: nat, x: real, y: real)
    requires n >= 1
    ensures Times(n, x) <= Times(n, y) <==> x <= y
  {
    if n > 1 {
      TimesCompare(n - 1, x, y);
    }
  }

  lemma NoTimesExactly(p: Decay, r: Record)
    requires GoodMasses(p) && r.WellSized() && r.n >= 1 && r.recent == []
    ensures AlwaysBounded(p, r) <==> Flat(p)
  {
    if AlwaysBounded(p, r) {
      forall l: nat | l >= 2
        ensures MeanAtFloor(p, l)
      {
        assert BoundedAt(p, r, r.firstAccess + l);
        NoTimes(p, r, r.firstAccess + l);
      }
    }
    if Flat(p) {
      forall now: nat
        ensures BoundedAt(p, r, now)
      {
        NoTimes(p, r, now);
      }
    }
  }

  /** The bound holds at every instant exactly for the records that have no
      access, or hold a time and no more times than accesses; one that holds no
      time is bounded only when nothing decays. */
  lemma BoundHoldsExactly(p: Decay, r: Record)
    requires GoodMasses(p) && r.WellSized()
    ensures AlwaysBounded(p, r) <==> r.n == 0 || (r.recent != [] && |r.recent| <= r.n) || (r.recent == [] && Flat(p))
  {
    if r.n == 0 {
      assert AlwaysBounded(p, r);
    } else if r.recent == [] {
      NoTimesExactly(p, r);
    } else if r.n < |r.recent| {
      TooManyTimes(p, r);
    } else {
      MassesAreEnvelope(p);
      forall now: nat
        ensures BoundedAt(p, r, now)
      {
        MassBound(p, p.mass, r, now);
      }
    }
  }

  /** A snapshot that holds more times than accesses escapes the bound. */
  lemma BoundNeedsSanity(p: Decay, t: nat)
    requires GoodMasses(p)
    ensures var r := Record([t, t], 0, 1, t); r.WellSized() && !AlwaysBounded(p, r)
  {
    BoundHoldsExactly(p, Record([t, t], 0, 1, t));
  }

  /** `n_max`: the largest count in a band. */
  function NMax(faixa: nat): (n: nat) {
    if faixa >= 63 then U64_MAX else Pow2(faixa + 1) - 1
  }

  /** The index's upper bound for every record of band `faixa` whose newest
      instant is `tRef`. */
  function Limite(p: Decay, faixa: nat, tRef: nat, now: nat): real {
    p.ln(NMax(faixa) as real) - p.penalty(Age(now, tRef))
  }

  lemma {:induction false} Pow2Monotone(a: nat, b: nat)
    requires a <= b
    ensures Pow2(a) <= Pow2(b)
  {
    if a < b {
      Pow2Monotone(a, b - 1);
    }
  }

  lemma BandHolds(n: nat)
    requires 1 <= n <= U64_MAX
    ensures n <= NMax(FloorLog2(n)) && 1 <= NMax(FloorLog2(n))
  {
    FloorLog2Brackets(n);
    Pow2Monotone(1, FloorLog2(n) + 1);
  }

  /** The largest count of a band is in the band itself. */
  lemma NMaxIsInBand(faixa: nat)
    requires faixa < 64
    ensures 1 <= NMax(faixa) <= U64_MAX && FloorLog2(NMax(faixa)) == faixa
  {
    Pow2Of64();
    Pow2Monotone(0, faixa);
    Pow2Monotone(faixa + 1, 64);
    var n, b := NMax(faixa), FloorLog2(NMax(faixa));
    FloorLog2Brackets(n);
    if b < faixa {
      Pow2Monotone(b + 1, faixa);
    } else if b > faixa {
      Pow2Monotone(faixa + 1, b);
    }
  }

  lemma Pow2Of64()
    ensures Pow2(64) == U64_MAX + 1 && Pow2(63) == 0x8000_0000_0000_0000
  {
    Pow2Doubles(16, 16);
    Pow2Doubles(32, 32);
    assert Pow2(4) == 16 && Pow2(8) == 256 && Pow2(12) == 4096 && Pow2(16) == 0x1_0000;
  }

  lemma {:induction false} Pow2Doubles(a: nat, b: nat)
    ensures Pow2(a + b) == Pow2(a) * Pow2(b)
  {
    if b > 0 {
      Pow2Doubles(a, b - 1);
    }
  }

  lemma LogOfFewer(p: Decay, top: nat -> real, n: nat, most: nat, a: nat)
    requires Envelope(p, top) && MonotoneOnPositive(p.ln) && LogWithinSlack(p, top)
    requires 1 <= n <= most && 1 <= a <= U64_MAX
    ensures 0.0 < Times(n, top(a)) && p.ln(Times(n, top(a))) <= p.ln(most as real) - p.penalty(a) + FOLGA_DO_LIMITE
  {
    LogOfTimes(p, top, most, a);
    assert 0.0 < p.mass(a) <= top(a);
    TimesOrder(n, most, top(a), top(a));
    TimesStrict(0, n, top(a));
  }

  lemma LogOfTimes(p: Decay, top: nat -> real, n: nat, a: nat)
    requires LogWithinSlack(p, top) && n >= 1 && 1 <= a <= U64_MAX
    ensures p.ln(Times(n, top(a))) <= p.ln(n as real) - p.penalty(a) + FOLGA_DO_LIMITE
  {
    TimesIsProduct(n, top(a));
    assert LogBounded(p, n as real, a, Times(n, top(a)));
  }

  lemma CastOfBounded(p: Decay, top: nat -> real, mass: real, n: nat, tRef: nat, now: u64)
    requires BoundedBy(p, top) && MonotoneOnPositive(p.ln) && Monotone(p.cast)
    requires 1 <= n <= U64_MAX && 0.0 < mass <= Times(n, top(Age(now, tRef)))
    ensures p.cast(p.ln(mass)) <= p.cast(Limite(p, FloorLog2(n), tRef, now) + FOLGA_DO_LIMITE)
  {
    BandHolds(n);
    LogOfFewer(p, top, n, NMax(FloorLog2(n)), Age(now, tRef));
    Chain(p.ln, p.cast, mass, Times(n, top(Age(now, tRef))), Limite(p, FloorLog2(n), tRef, now) + FOLGA_DO_LIMITE);
  }

  lemma Chain(f: real -> real, g: real -> real, x: real, y: real, z: real)
    requires MonotoneOnPositive(f) && Monotone(g) && 0.0 < x <= y && f(y) <= z
    ensures g(f(x)) <= g(z)
  {}

  /** The bound dominates the score once the slack is added and both are cast. */
  lemma LimiteDominates(p: Decay, r: Record, now: u64)
    requires Lawful(p) && Sane(r)
    ensures var (faixa, tRef) := r.ChaveDeIndice();
            r.Score(p, now) <= p.cast(Limite(p, faixa, tRef, now) + FOLGA_DO_LIMITE)
  {
    var top: nat -> real :| BoundedBy(p, top);
    MassBound(p, top, r, now);
    CastOfBounded(p, top, r.RawSum(p, now), r.n, r.TRef(), now);
  }

  /** Within a band the bound falls with the newest instant: walking a band from
      the newest record to the oldest never meets a larger bound. */
  lemma LimiteMonotone(p: Decay, faixa: nat, s: nat, t: nat, now: nat)
    requires PenaltyGrows(p) && s <= t
    ensures Limite(p, faixa, s, now) <= Limite(p, faixa, t, now)
  {
    AgeAntitone(now, s, t);
  }
}
