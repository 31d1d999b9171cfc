/** What a record says about the accesses that produced it. A trace is the
    sequence of times handed to `access`, in call order and in any numeric order. */
module ActivationTraces {
  import opened Wrappers
  import opened Decays
  import opened Numbers
  import opened ActivationRecords

  ghost predicate Nondecreasing(trace: seq<nat>) {
    forall i, j :: 0 <= i <= j < |trace| ==> trace[i] <= trace[j]
  }

  /** The last `min(n, 8)` accesses. */
  function Window(trace: seq<nat>): seq<nat> {
    trace[|trace| - Min(|trace|, RECENT_K)..]
  }

  /** The buffer read from its oldest entry round to its newest. */
  function Chronological(r: Record): seq<nat>
    requires r.WellSized()
  {
    if r.Full() then r.recent[r.proximoSlot..] + r.recent[..r.proximoSlot] else r.recent
  }

  /** `r` is the record of exactly the accesses in `trace`. */
  ghost predicate Represents(r: Record, trace: seq<nat>) {
    && r.WellSized()
    && r.n == |trace|
    && |r.recent| == Min(|trace|, RECENT_K)
    && Chronological(r) == Window(trace)
    && r.proximoSlot == (if r.Full() then |trace| % RECENT_K else 0)
    && r.firstAccess == (if trace == [] then 0 else trace[0])
  }

  /** The record left by a whole trace. */
  ghost function Replay(trace: seq<nat>): (r: Record)
    requires |trace| <= U64_MAX
    ensures r.WellSized() && r.n == |trace|
  {
    if trace == [] then EMPTY else Replay(trace[..|trace| - 1]).Access(trace[|trace| - 1])
  }

  /** Overwriting the oldest slot of a full buffer shifts the order by one. */
  lemma OverwriteShifts(recent: seq<nat>, s: nat, now: nat)
    requires |recent| == RECENT_K && s < RECENT_K
    ensures var next, t := recent[s := now], (s + 1) % RECENT_K;
            next[t..] + next[..t] == (recent[s..] + recent[..s])[1..] + [now]
  {
    var next := recent[s := now];
    assert (recent[s..] + recent[..s])[1..] == recent[s + 1..] + recent[..s];
    if s + 1 < RECENT_K {
      assert next[s + 1..] == recent[s + 1..];
      assert next[..s + 1] == recent[..s] + [now];
    } else {
      assert next == recent[..s] + [now];
    }
  }

  lemma WindowSlides(trace: seq<nat>, now: nat)
    ensures Window(trace + [now]) == if |trace| < RECENT_K then Window(trace) + [now] else Window(trace)[1..] + [now]
  {}

  lemma AccessKeeps(r: Record, trace: seq<nat>, now: nat)
    requires Represents(r, trace) && |trace| < U64_MAX
    ensures Represents(r.Access(now), trace + [now])
  {
    WindowSlides(trace, now);
    if r.Full() {
      FullAccessKeeps(r, trace, now);
    } else {
      var next := r.recent + [now];
      assert next[0..] + next[..0] == next;
    }
  }

  lemma FullAccessKeeps(r: Record, trace: seq<nat>, now: nat)
    requires Represents(r, trace) && |trace| < U64_MAX && r.Full()
    ensures Represents(r.Access(now), trace + [now])
  {
    var next := r.Access(now);
    FullWindowSlides(r, trace, now);
    NextSlot(|trace|);
    assert next.Full() && next.n == |trace| + 1 && |trace| >= RECENT_K;
    assert (trace + [now])[0] == trace[0];
  }

  lemma NextSlot(n: nat)
    ensures (n % RECENT_K + 1) % RECENT_K == (n + 1) % RECENT_K
  {}

  lemma FullWindowSlides(r: Record, trace: seq<nat>, now: nat)
    requires r.WellSized() && r.Full() && |trace| >= RECENT_K && Chronological(r) == Window(trace)
    ensures r.Access(now).recent == r.recent[r.proximoSlot := now]
    ensures r.Access(now).proximoSlot == (r.proximoSlot + 1) % RECENT_K
    ensures var (next, s) := (r.Access(now).recent, r.Access(now).proximoSlot);
            next[s..] + next[..s] == Window(trace + [now])
  {
    WindowSlides(trace, now);
    OverwriteShifts(r.recent, r.proximoSlot, now);
  }

  /** Whatever the accesses, the circular buffer holds exactly the latest
      `min(n, 8)` of them, starting at the next slot to be overwritten. */
  lemma {:induction false} ReplayRepresents(trace: seq<nat>)
    requires |trace| <= U64_MAX
    ensures Represents(Replay(trace), trace)
  {
    if trace != [] {
      var front, last := trace[..|trace| - 1], trace[|trace| - 1];
      ReplayRepresents(front);
      AccessKeeps(Replay(front), front, last);
      assert front + [last] == trace;
    }
  }

  /** The entry read as the oldest is the first of the window. */
  lemma OldestIsWindowStart(r: Record, trace: seq<nat>)
    requires Represents(r, trace)
    ensures r.MaisAntigo() == if trace == [] then None else Some(Window(trace)[0])
  {
    if r.Full() {
      assert Chronological(r)[0] == r.recent[r.proximoSlot];
    }
  }

  lemma {:induction false} SumMassConcat(p: Decay, a: seq<nat>, b: seq<nat>, now: nat)
    ensures SumMass(p, a + b, now) == SumMass(p, a, now) + SumMass(p, b, now)
  {
    if b == [] {
      assert a + b == a;
    } else {
      SumMassConcat(p, a, b[..|b| - 1], now);
      assert (a + b)[..|a + b| - 1] == a + b[..|b| - 1];
    }
  }

  /** Wherever it stands among the others, an access adds the mass of its own age. */
  lemma EachAccessCounts(p: Decay, before: seq<nat>, t: nat, later: seq<nat>, now: nat)
    ensures SumMass(p, before + [t] + later, now) ==
            SumMass(p, before + later, now) + p.mass(if t < now then now - t else 1)
    ensures SumMass(p, [], now) == 0.0
  {
    SumMassConcat(p, before + [t], later, now);
    SumMassConcat(p, before, [t], now);
    SumMassConcat(p, before, later, now);
    assert [t][..0] == [];
  }

  /** The circular buffer scores exactly like the shifting window it replaced. */
  lemma RingScoresLikeWindow(p: Decay, r: Record, trace: seq<nat>, now: nat)
    requires Represents(r, trace)
    ensures r.RawSum(p, now) ==
            if trace == [] then 0.0
            else Mass(p, Window(trace), |trace|, trace[0], Window(trace)[0], now)
  {
    OldestIsWindowStart(r, trace);
    if r.Full() {
      var s := r.proximoSlot;
      SumMassConcat(p, r.recent[s..], r.recent[..s], now);
      SumMassConcat(p, r.recent[..s], r.recent[s..], now);
      assert r.recent[..s] + r.recent[s..] == r.recent;
    }
  }

  /** Up to 8 accesses the mass is exact, in any order of the accesses. */
  lemma ExactWhenShort(p: Decay, r: Record, trace: seq<nat>, now: nat)
    requires Represents(r, trace) && |trace| <= RECENT_K
    ensures r.RawSum(p, now) == SumMass(p, trace, now)
  {
    RingScoresLikeWindow(p, r, trace, now);
    assert Window(trace) == trace;
  }

  /** Beyond 8 accesses, in any order, the mass is the sum over the last 8 and, for
      the others, as many copies of the mean of the decay over an age range: from
      the age of the oldest access held to that of the first, put in order and at
      least 1 apart. A negative tail counts as nothing. */
  lemma RawSumWrittenOut(p: Decay, r: Record, trace: seq<nat>, now: nat)
    requires Represents(r, trace) && |trace| > RECENT_K
    ensures var n := |trace|;
            var held := if trace[n - 8] < now then now - trace[n - 8] else 1;
            var life := if trace[0] < now then now - trace[0] else 1;
            var h := if held <= life then held else life;
            var l := if life > held then life else held + 1;
            var tail := (n - 8) as real * (p.tailNum(h, l) / (l - h) as real);
            r.RawSum(p, now) == SumMass(p, trace[n - 8..], now) + if tail > 0.0 then tail else 0.0
  {
    WindowAndTail(p, r, trace, now);
    TailWrittenOut(p, |trace| - 8, trace[0], trace[|trace| - 8], now);
  }

  lemma WindowAndTail(p: Decay, r: Record, trace: seq<nat>, now: nat)
    requires Represents(r, trace) && |trace| > RECENT_K
    ensures r.RawSum(p, now) ==
            SumMass(p, trace[|trace| - 8..], now) + Tail(p, |trace| - 8, trace[0], trace[|trace| - 8], now)
  {
    RawSumParts(p, r, trace, now);
    assert Window(trace) == trace[|trace| - 8..];
  }

  /** The mass and the exact sum over the whole trace differ by at most the margin. */
  ghost predicate ErrsWithin(p: Decay, r: Record, trace: seq<nat>, now: nat, margin: real)
    requires r.WellSized()
  {
    -margin <= r.RawSum(p, now) - SumMass(p, trace, now) <= margin
  }

  /** For accesses in time order the mass misses the exact sum by no more than
      the older accesses times the drop in mass over the tail's age range: from the
      age of the 8th access from the end to that of the first. */
  lemma ApproximationError(p: Decay, r: Record, trace: seq<nat>, now: nat)
    requires GoodMasses(p) && Represents(r, trace) && Nondecreasing(trace) && |trace| > RECENT_K
    ensures var n := |trace|;
            var h := if trace[n - 8] < now then now - trace[n - 8] else 1;
            var l := if trace[0] + h < now then now - trace[0] else h + 1;
            ErrsWithin(p, r, trace, now, Times(n - 8, p.mass(h) - p.mass(l)))
  {
    RangeInOrder(trace, now);
    var (h, l) := TailRange(trace[0], Window(trace)[0], now);
    ErrorInRange(p, r, trace, now, h, l);
  }

  lemma ErrorInRange(p: Decay, r: Record, trace: seq<nat>, now: nat, h: nat, l: nat)
    requires GoodMasses(p) && Represents(r, trace) && Nondecreasing(trace) && |trace| > RECENT_K
    requires (h, l) == TailRange(trace[0], Window(trace)[0], now)
    ensures ErrsWithin(p, r, trace, now, Times(|trace| - 8, p.mass(h) - p.mass(l)))
  {
    var m := |trace| - 8;
    var window, older := SumMass(p, Window(trace), now), SumMass(p, trace[..m], now);
    var tail := Tail(p, m, trace[0], Window(trace)[0], now);
    RawSumParts(p, r, trace, now);
    OlderBounds(p, trace, now);
    TailBounds(p, m, trace[0], Window(trace)[0], now);
    MarginOf(m, p.mass(h), p.mass(l), tail, older);
    ErrorOf(p, r, trace, now, window, tail, older, Times(m, p.mass(h) - p.mass(l)));
  }

  /** Two values between as many copies of `y` and of `x`. */
  lemma MarginOf(m: nat, x: real, y: real, a: real, b: real)
    requires Times(m, y) <= a <= Times(m, x) && Times(m, y) <= b <= Times(m, x)
    ensures -Times(m, x - y) <= a - b <= Times(m, x - y)
  {
    TimesDifference(m, x, y);
  }

  lemma ErrorOf(p: Decay, r: Record, trace: seq<nat>, now: nat, window: real, tail: real, older: real, margin: real)
    requires r.WellSized() && r.RawSum(p, now) == window + tail && SumMass(p, trace, now) == window + older
    requires -margin <= tail - older <= margin
    ensures ErrsWithin(p, r, trace, now, margin)
  {}

  /** The tail's range for accesses in time order. */
  lemma RangeInOrder(trace: seq<nat>, now: nat)
    requires Nondecreasing(trace) && |trace| > RECENT_K
    ensures var held := trace[|trace| - 8];
            var h := if held < now then now - held else 1;
            TailRange(trace[0], Window(trace)[0], now) == (h, if trace[0] + h < now then now - trace[0] else h + 1)
  {
    assert trace[0] <= trace[|trace| - 8];
  }

  /** Approximation and exact sum share the window; they differ in the rest. */
  lemma RawSumParts(p: Decay, r: Record, trace: seq<nat>, now: nat)
    requires Represents(r, trace) && |trace| > RECENT_K
    ensures r.RawSum(p, now) ==
            SumMass(p, Window(trace), now) + Tail(p, |trace| - RECENT_K, trace[0], Window(trace)[0], now)
    ensures SumMass(p, trace, now) == SumMass(p, Window(trace), now) + SumMass(p, trace[..|trace| - RECENT_K], now)
  {
    RingScoresLikeWindow(p, r, trace, now);
    assert trace[..|trace| - RECENT_K] + Window(trace) == trace;
    SumMassConcat(p, trace[..|trace| - RECENT_K], Window(trace), now);
  }

  lemma {:induction false} TimesDifference(m: nat, x: real, y: real)
    ensures Times(m, x - y) == Times(m, x) - Times(m, y)
  {
    if m > 0 {
      TimesDifference(m - 1, x, y);
    }
  }

  /** The accesses outside the window sum to a value in the tail's own interval. */
  lemma OlderBounds(p: Decay, trace: seq<nat>, now: nat)
    requires GoodMasses(p) && Nondecreasing(trace) && |trace| > RECENT_K
    ensures var (h, l) := TailRange(trace[0], Window(trace)[0], now);
            var m := |trace| - RECENT_K;
            Times(m, p.mass(l)) <= SumMass(p, trace[..m], now) <= Times(m, p.mass(h))
  {
    var (h, l) := TailRange(trace[0], Window(trace)[0], now);
    var m := |trace| - RECENT_K;
    AgeAntitone(now, trace[0], trace[m]);
    SumMassBounds(p, trace[..m], trace[0], trace[m], now);
    assert p.mass(l) <= p.mass(Age(now, trace[0])) && h == Age(now, trace[m]);
    assert p.mass(Age(now, trace[0])) > 0.0;
    TimesOrder(m, m, p.mass(l), p.mass(Age(now, trace[0])));
  }

  // ---- how tight the bound is -----------------------------------------------

  lemma {:induction false} SumMassAlike(p: Decay, times: seq<nat>, t: nat, now: nat)
    requires forall x :: x in times ==> x == t
    ensures SumMass(p, times, now) == Times(|times|, p.mass(Age(now, t)))
  {
    if times != [] {
      var front, last := times[..|times| - 1], times[|times| - 1];
      assert last in times && forall x :: x in front ==> x in times;
      SumMassAlike(p, front, t, now);
    }
  }

  lemma AlikeMass(p: Decay, r: Record, trace: seq<nat>, t: nat, now: nat)
    requires Represents(r, trace) && |trace| <= RECENT_K && forall x :: x in trace ==> x == t
    ensures r.RawSum(p, now) == Times(|trace|, p.mass(Age(now, t)))
  {
    ExactWhenShort(p, r, trace, now);
    SumMassAlike(p, trace, t, now);
  }

  lemma AlikeKey(r: Record, trace: seq<nat>, t: nat)
    requires Represents(r, trace) && 1 <= |trace| < RECENT_K && forall x :: x in trace ==> x == t
    ensures r.ChaveDeIndice() == (FloorLog2(|trace|), t)
  {
    ShortTrace(r, trace);
    TRefIsNewest(r);
  }

  /** As many accesses as a band holds, all at one time, reach the bound: with one
      access per record the bound is the score. */
  lemma LimiteIsAttained(p: Decay, r: Record, trace: seq<nat>, t: nat, now: nat)
    requires Represents(r, trace) && |trace| in {1, 3, 7} && forall x :: x in trace ==> x == t
    requires var a := if t < now then now - t else 1;
             p.ln(Times(|trace|, p.mass(a))) == p.ln(|trace| as real) - p.penalty(a)
    ensures r.ChaveDeIndice() == (if |trace| == 1 then 0 else if |trace| == 3 then 1 else 2, t)
    ensures p.ln(r.RawSum(p, now)) == Limite(p, r.ChaveDeIndice().0, r.ChaveDeIndice().1, now)
  {
    AlikeMass(p, r, trace, t, now);
    AlikeKey(r, trace, t);
    SmallBands();
  }

  lemma SmallBands()
    ensures FloorLog2(1) == 0 && FloorLog2(3) == 1 && FloorLog2(7) == 2
    ensures NMax(0) == 1 && NMax(1) == 3 && NMax(2) == 7
  {
    assert Pow2(1) == 2 && Pow2(2) == 4 && Pow2(3) == 8;
  }

  lemma ShortTrace(r: Record, trace: seq<nat>)
    requires Represents(r, trace) && 1 <= |trace| < RECENT_K
    ensures r.recent == trace && r.firstAccess in trace
  {
    assert trace[0..] == trace;
  }

  // ---- checkpoint and restore of one record --------------------------------

  /** What the checkpoint keeps of a record: all of it but `proximo_slot`. */
  datatype Saved = Saved(recent: seq<nat>, n: u64, firstAccess: nat)

  function Save(r: Record): Saved
    requires r.n <= U64_MAX
  {
    Saved(r.recent, r.n, r.firstAccess)
  }

  function Restored(s: Saved): (r: Record)
    ensures r.WellSized()
  {
    var recent := s.recent[..Min(|s.recent|, RECENT_K)];
    Record(recent, if |recent| == RECENT_K then s.n % RECENT_K else 0, s.n, s.firstAccess)
  }

  /** Dropping the slot loses nothing exactly when it is the one `n` implies. */
  lemma RestoredExactly(r: Record)
    requires |r.recent| <= RECENT_K && r.n <= U64_MAX
    ensures Restored(Save(r)) == r <==> r.proximoSlot == if r.Full() then r.n % RECENT_K else 0
  {
    assert r.recent[..|r.recent|] == r.recent;
  }

  /** Of a snapshot that holds more times than fit, the first are taken. */
  lemma RestoredTakesFirst(s: Saved)
    ensures var r := Restored(s);
            && r.recent <= s.recent && |r.recent| == (if |s.recent| < 8 then |s.recent| else 8)
            && r.n == s.n && r.firstAccess == s.firstAccess
            && r.MaisAntigo() == if s.recent == [] then None
                                 else if |s.recent| < 8 then Some(s.recent[0])
                                 else Some(s.recent[s.n % 8])
  {}

  /** Every record a trace can leave survives a checkpoint unchanged. */
  lemma ReplaySurvivesRestore(trace: seq<nat>)
    requires |trace| <= U64_MAX
    ensures Restored(Save(Replay(trace))) == Replay(trace)
  {
    ReplayRepresents(trace);
    RestoredExactly(Replay(trace));
  }
}
