/** The store: a record per event id, and an index that lets `top_k` stop early.
    `EventId` is a totally ordered identifier, modelled as a natural. */
module ActivationStores {
  import opened Wrappers
  import opened Decays
  import opened Numbers
  import opened ActivationRecords
  import opened ActivationTraces
  import R = Ranking

  type EventId = nat

  /** An index entry `(Reverse(t_ref), id)`, as `(t_ref, id)`. */
  type Entry = (nat, EventId)

  /** The order of a band: newest instant first, then id. */
  predicate Earlier(a: Entry, b: Entry) {
    a.0 > b.0 || (a.0 == b.0 && a.1 < b.1)
  }

  ghost predicate IsFirst(e: Entry, s: set<Entry>) {
    e in s && forall f :: f in s && f != e ==> Earlier(e, f)
  }

  lemma {:induction false} FirstExists(s: set<Entry>)
    requires s != {}
    ensures exists e :: IsFirst(e, s)
  {
    var x :| x in s;
    var rest := s - {x};
    assert s == rest + {x};
    if rest == {} {
      assert IsFirst(x, s);
    } else {
      FirstExists(rest);
      var e :| IsFirst(e, rest);
      assert IsFirst(if Earlier(x, e) then x else e, s);
    }
  }

  type Faixas = seq<set<Entry>>
  type RecordMap = map<EventId, Record>

  type Chave = (nat, nat)
  type Chaves = map<EventId, Chave>

  /** The index lists exactly the keys, each once: every entry is some id's key,
      and every id's key is an entry. */
  ghost predicate Indexes(faixas: Faixas, chaves: Chaves) {
    && (forall b: nat, e: Entry :: b < |faixas| && e in faixas[b] ==> e.1 in chaves && chaves[e.1] == (b, e.0))
    && (forall id: EventId :: id in chaves ==> Listed(faixas, chaves[id], id))
  }

  ghost predicate Listed(faixas: Faixas, chave: Chave, id: EventId) {
    chave.0 < |faixas| && (chave.1, id) in faixas[chave.0]
  }

  /** No id is listed twice, whether in two bands or twice in one. */
  lemma ListedOnce(faixas: Faixas, chaves: Chaves, b: nat, c: nat, e: Entry, f: Entry)
    requires Indexes(faixas, chaves)
    requires b < |faixas| && e in faixas[b] && c < |faixas| && f in faixas[c] && e.1 == f.1
    ensures b == c && e == f
  {
    assert chaves[e.1] == (b, e.0) && chaves[f.1] == (c, f.0);
  }

  /** The current key of every record. */
  ghost function ChavesOf(recs: RecordMap): Chaves {
    map id | id in recs :: recs[id].ChaveDeIndice()
  }

  function HitOf(p: Decay, id: EventId, r: Record, now: nat): R.Hit
    requires r.WellSized()
  {
    R.Hit(id, r.Score(p, now))
  }

  ghost predicate AllWellSized(recs: RecordMap) {
    forall id :: id in recs ==> recs[id].WellSized()
  }

  ghost predicate AllSane(recs: RecordMap) {
    forall id :: id in recs ==> Sane(recs[id])
  }

  /** One hit per id in `ids`. */
  ghost function HitsOf(p: Decay, recs: RecordMap, ids: set<EventId>, now: nat): set<R.Hit>
    requires AllWellSized(recs) && ids <= recs.Keys
  {
    set id | id in ids :: HitOf(p, id, recs[id], now)
  }

  /** The specification of `top_k`: the first `k` of the full sort of all records. */
  ghost function TopOf(p: Decay, recs: RecordMap, now: nat, k: nat): seq<R.Hit>
    requires AllWellSized(recs)
  {
    R.Top(HitsOf(p, recs, recs.Keys, now), k)
  }

  /** `hits` are the `k` most active records: the logarithms of their masses, cast,
      in descending order and by id on a tie, and no other record comes before one
      of them. */
  ghost predicate MostActive(p: Decay, recs: RecordMap, now: nat, k: nat, hits: seq<R.Hit>)
    requires AllWellSized(recs)
  {
    && |hits| == (if k <= |recs| then k else |recs|)
    && (forall h :: h in hits ==> h.id in recs && h.score == p.cast(p.ln(recs[h.id].RawSum(p, now))))
    && (forall i, j :: 0 <= i < j < |hits| ==>
          hits[i].score > hits[j].score || (hits[i].score == hits[j].score && hits[i].id < hits[j].id))
    && (forall id, h :: id in recs && (forall g :: g in hits ==> g.id != id) && h in hits ==>
          var score := p.cast(p.ln(recs[id].RawSum(p, now)));
          h.score > score || (h.score == score && h.id < id))
  }

  lemma TopIsMostActive(p: Decay, recs: RecordMap, now: nat, k: nat)
    requires AllWellSized(recs)
    ensures MostActive(p, recs, now, k, TopOf(p, recs, now, k))
  {
    var all, hits := HitsOf(p, recs, recs.Keys, now), TopOf(p, recs, now, k);
    HitsCount(p, recs, recs.Keys, now);
    assert |recs| == |recs.Keys|;
    R.TopHolds(all, k);
    forall id, h | id in recs && (forall g :: g in hits ==> g.id != id) && h in hits
      ensures var score := p.cast(p.ln(recs[id].RawSum(p, now)));
              h.score > score || (h.score == score && h.id < id)
    {
      var other := HitOf(p, id, recs[id], now);
      assert other in all && other !in hits;
      assert R.Before(h, other);
    }
  }

  lemma {:induction false} HitsCount(p: Decay, recs: RecordMap, ids: set<EventId>, now: nat)
    requires AllWellSized(recs) && ids <= recs.Keys
    ensures |HitsOf(p, recs, ids, now)| == |ids|
  {
    if ids != {} {
      var id :| id in ids;
      var rest := ids - {id};
      assert rest + {id} == ids;
      HitsCount(p, recs, rest, now);
      HitsGrow(p, recs, rest, id, now);
      OneLarger(HitsOf(p, recs, rest, now), HitOf(p, id, recs[id], now));
    }
  }

  lemma OneLarger<T>(s: set<T>, x: T)
    requires x !in s
    ensures |s + {x}| == |s| + 1
  {}

  lemma HitsGrow(p: Decay, recs: RecordMap, ids: set<EventId>, id: EventId, now: nat)
    requires AllWellSized(recs) && ids <= recs.Keys && id in recs && id !in ids
    ensures HitOf(p, id, recs[id], now) !in HitsOf(p, recs, ids, now)
    ensures HitsOf(p, recs, ids + {id}, now) == HitsOf(p, recs, ids, now) + {HitOf(p, id, recs[id], now)}
  {}

  ghost predicate Distinct<T>(s: seq<T>) {
    forall i, j :: 0 <= i < j < |s| ==> s[i] != s[j]
  }

  /** `s` lists the elements of `all`, each once, in any order. */
  ghost predicate Lists<T(!new)>(s: seq<T>, all: set<T>) {
    Distinct(s) && forall x :: x in s <==> x in all
  }

  ghost function Prefix<T>(s: seq<T>, n: nat): set<T>
    requires n <= |s|
  {
    set i | 0 <= i < n :: s[i]
  }

  lemma PrefixGrows<T>(s: seq<T>, n: nat)
    requires Distinct(s) && n < |s|
    ensures s[n] !in Prefix(s, n) && Prefix(s, n + 1) == Prefix(s, n) + {s[n]}
  {}

  ghost predicate ListsHits(p: Decay, recs: RecordMap, hits: seq<R.Hit>, ids: set<EventId>, now: nat)
    requires AllWellSized(recs) && ids <= recs.Keys
  {
    Lists(hits, HitsOf(p, recs, ids, now))
  }

  lemma ListsGrow(p: Decay, recs: RecordMap, hits: seq<R.Hit>, ids: set<EventId>, id: EventId, now: nat)
    requires AllWellSized(recs) && ids <= recs.Keys && id in recs && id !in ids
    requires ListsHits(p, recs, hits, ids, now)
    ensures ListsHits(p, recs, hits + [HitOf(p, id, recs[id], now)], ids + {id}, now)
  {
    HitsGrow(p, recs, ids, id, now);
    ListsAppend(hits, HitsOf(p, recs, ids, now), HitOf(p, id, recs[id], now));
  }

  lemma ListsAppend<T(!new)>(s: seq<T>, all: set<T>, x: T)
    requires Lists(s, all) && x !in all
    ensures Lists(s + [x], all + {x})
  {
    assert forall i :: 0 <= i < |s| ==> s[i] in s;
  }

  lemma {:induction false} ListsCount<T(!new)>(s: seq<T>, all: set<T>)
    requires Lists(s, all)
    ensures |s| == |all|
  {
    if s != [] {
      var front, last := s[..|s| - 1], s[|s| - 1];
      assert s == front + [last];
      assert Lists(front, all - {last}) by {
        assert forall i :: 0 <= i < |front| ==> front[i] == s[i];
      }
      ListsCount(front, all - {last});
    } else {
      assert forall x :: x in all ==> x in s;
      assert all == {};
    }
  }

  /** Asking for at least as many as there are keeps them all. */
  lemma AllAreTop(hits: seq<R.Hit>, all: set<R.Hit>, k: nat)
    requires Lists(hits, all) && |hits| <= k
    ensures forall h :: h in hits <==> h in R.Top(all, k)
  {
    ListsCount(hits, all);
    assert R.Top(all, k) == R.Rank(all);
  }

  /** `limite` is at least the bound of every entry of the first `n` bands, when
      bounds fall with the instant at all. */
  ghost predicate Covers(p: Decay, limite: real, cursores: Faixas, n: nat, now: nat)
    requires n <= |cursores|
  {
    PenaltyGrows(p) ==>
      forall b: nat, e: Entry :: b < n && e in cursores[b] ==> Limite(p, b, e.0, now) <= limite
  }

  lemma FirstCovers(p: Decay, cursores: Faixas, b: nat, first: Entry, now: nat)
    requires b < |cursores| && IsFirst(first, cursores[b])
    ensures PenaltyGrows(p) ==>
              forall e: Entry :: e in cursores[b] ==> Limite(p, b, e.0, now) <= Limite(p, b, first.0, now)
  {
    if PenaltyGrows(p) {
      forall e: Entry | e in cursores[b]
        ensures Limite(p, b, e.0, now) <= Limite(p, b, first.0, now)
      {
        LimiteMonotone(p, b, e.0, first.0, now);
      }
    }
  }

  /** `limite` is the bound of the first entry left in band `b`. */
  ghost predicate BoundOf(p: Decay, cursores: Faixas, b: nat, limite: real, now: nat) {
    b < |cursores| && exists e :: IsFirst(e, cursores[b]) && limite == Limite(p, b, e.0, now)
  }

  /** Band `b` is worth a visit: its bound is the largest left and reaches the
      `k`-th score, if there are that many. */
  ghost predicate Promising(p: Decay, cursores: Faixas, b: nat, limite: real, melhores: seq<R.Hit>, now: nat, k: nat) {
    && BoundOf(p, cursores, b, limite, now) && Covers(p, limite, cursores, |cursores|, now)
    && (|melhores| == k && k > 0 ==> p.cast(limite + FOLGA_DO_LIMITE) >= melhores[k - 1].score)
  }

  ghost predicate Left(cursor: set<Entry>, faixa: set<Entry>, seen: set<EventId>) {
    forall e :: e in cursor <==> e in faixa && e.1 !in seen
  }

  /** The cursors hold exactly the index entries of the ids not yet seen. */
  ghost predicate Remaining(cursores: Faixas, faixas: Faixas, seen: set<EventId>) {
    && |cursores| == |faixas|
    && forall b: nat :: b < |faixas| ==> Left(cursores[b], faixas[b], seen)
  }

  /** An id not yet seen still has its entry in a cursor. */
  lemma UnseenRemains(cursores: Faixas, faixas: Faixas, chaves: Chaves, seen: set<EventId>, id: EventId)
    requires Indexes(faixas, chaves) && Remaining(cursores, faixas, seen) && id in chaves && id !in seen
    ensures Listed(cursores, chaves[id], id)
  {
    assert Listed(faixas, chaves[id], id);
    assert Left(cursores[chaves[id].0], faixas[chaves[id].0], seen);
  }

  lemma AllSeen(cursores: Faixas, faixas: Faixas, chaves: Chaves, seen: set<EventId>)
    requires Indexes(faixas, chaves) && Remaining(cursores, faixas, seen) && seen <= chaves.Keys
    requires forall b :: 0 <= b < |cursores| ==> cursores[b] == {}
    ensures seen == chaves.Keys
  {
    forall id | id in chaves
      ensures id in seen
    {
      if id !in seen {
        UnseenRemains(cursores, faixas, chaves, seen, id);
      }
    }
  }

  lemma NoneLeft(p: Decay, recs: RecordMap, cursores: Faixas, faixas: Faixas, seen: set<EventId>, now: nat, k: nat)
    requires AllWellSized(recs) && seen <= recs.Keys
    requires Indexes(faixas, ChavesOf(recs)) && Remaining(cursores, faixas, seen)
    requires forall b :: 0 <= b < |cursores| ==> cursores[b] == {}
    ensures R.Top(HitsOf(p, recs, seen, now), k) == TopOf(p, recs, now, k)
  {
    AllSeen(cursores, faixas, ChavesOf(recs), seen);
    assert seen == recs.Keys;
  }

  lemma NextIsNew(cursores: Faixas, faixas: Faixas, chaves: Chaves, seen: set<EventId>, i: nat, e: Entry)
    requires Indexes(faixas, chaves) && Remaining(cursores, faixas, seen)
    requires i < |cursores| && e in cursores[i]
    ensures e.1 in chaves && e.1 !in seen
    ensures Remaining(cursores[i := cursores[i] - {e}], faixas, seen + {e.1})
  {
    var after := cursores[i := cursores[i] - {e}];
    assert Left(cursores[i], faixas[i], seen);
    forall b: nat | b < |faixas|
      ensures Left(after[b], faixas[b], seen + {e.1})
    {
      assert Left(cursores[b], faixas[b], seen);
      forall f | f in faixas[b] && f.1 == e.1
        ensures b == i && f == e
      {
        ListedOnce(faixas, chaves, i, b, e, f);
      }
    }
  }

  /** When the largest bound left, slack added and cast, is below the `k`-th
      score, no record left can enter the result or tie with it. */
  lemma StopIsSafe(p: Decay, recs: RecordMap, cursores: Faixas, faixas: Faixas, seen: set<EventId>,
                   limite: real, now: u64, k: nat)
    requires AllWellSized(recs) && seen <= recs.Keys
    requires Indexes(faixas, ChavesOf(recs)) && Remaining(cursores, faixas, seen)
    requires Covers(p, limite, cursores, |cursores|, now)
    requires var melhores := R.Top(HitsOf(p, recs, seen, now), k);
             0 < k == |melhores| && p.cast(limite + FOLGA_DO_LIMITE) < melhores[k - 1].score
    ensures Lawful(p) && AllSane(recs) ==> R.Top(HitsOf(p, recs, seen, now), k) == TopOf(p, recs, now, k)
  {
    if Lawful(p) && AllSane(recs) {
      var hits, more := HitsOf(p, recs, seen, now), HitsOf(p, recs, recs.Keys - seen, now);
      forall y | y in more
        ensures R.Before(R.Top(hits, k)[k - 1], y)
      {
        UnseenScoresLow(p, recs, cursores, faixas, seen, limite, now, y.id);
      }
      R.EarlyStop(hits, more, k);
      assert hits + more == HitsOf(p, recs, recs.Keys, now);
    }
  }

  lemma StopOrGoOn(p: Decay, recs: RecordMap, cursores: Faixas, faixas: Faixas, seen: set<EventId>, b: nat,
                   limite: real, melhores: seq<R.Hit>, now: u64, k: nat)
    requires k > 0 && AllWellSized(recs) && seen <= recs.Keys
    requires Indexes(faixas, ChavesOf(recs)) && Remaining(cursores, faixas, seen)
    requires BoundOf(p, cursores, b, limite, now) && Covers(p, limite, cursores, |cursores|, now)
    requires melhores == R.Top(HitsOf(p, recs, seen, now), k)
    ensures if |melhores| == k && p.cast(limite + FOLGA_DO_LIMITE) < melhores[k - 1].score then
              Lawful(p) && AllSane(recs) ==> melhores == TopOf(p, recs, now, k)
            else Promising(p, cursores, b, limite, melhores, now, k)
  {
    if |melhores| == k && p.cast(limite + FOLGA_DO_LIMITE) < melhores[k - 1].score {
      StopIsSafe(p, recs, cursores, faixas, seen, limite, now, k);
    }
  }

  lemma UnseenScoresLow(p: Decay, recs: RecordMap, cursores: Faixas, faixas: Faixas, seen: set<EventId>,
                        limite: real, now: u64, id: EventId)
    requires Lawful(p) && AllSane(recs) && id in recs && id !in seen
    requires Indexes(faixas, ChavesOf(recs)) && Remaining(cursores, faixas, seen)
    requires Covers(p, limite, cursores, |cursores|, now)
    ensures recs[id].Score(p, now) <= p.cast(limite + FOLGA_DO_LIMITE)
  {
    var (b, t) := recs[id].ChaveDeIndice();
    UnseenRemains(cursores, faixas, ChavesOf(recs), seen, id);
    assert (t, id) in cursores[b];
    LimiteDominates(p, recs[id], now);
    assert p.cast(Limite(p, b, t, now) + FOLGA_DO_LIMITE) <= p.cast(limite + FOLGA_DO_LIMITE);
  }

  /** A record, updated in place. */
  class ActivationRecord {
    var recent: seq<nat>
    var proximoSlot: nat
    var n: nat
    var firstAccess: nat

    ghost function Value(): Record
      reads this
    {
      Record(recent, proximoSlot, n, firstAccess)
    }

    constructor ()
      ensures Value() == EMPTY
    {
      recent, proximoSlot, n, firstAccess := [], 0, 0, 0;
    }

    constructor FromSaved(s: Saved)
      ensures Value() == Restored(s)
    {
      var kept := s.recent[..Min(|s.recent|, RECENT_K)];
      recent, n, firstAccess := kept, s.n, s.firstAccess;
      proximoSlot := if |kept| == RECENT_K then s.n % RECENT_K else 0;
    }

    method Access(now: nat)
      requires Value().WellSized() && n < U64_MAX
      modifies this
      ensures Value() == old(Value()).Access(now)
      ensures Value().WellSized()
    {
      if n == 0 {
        firstAccess := now;
      }
      if |recent| == RECENT_K {
        recent := recent[proximoSlot := now];
        proximoSlot := (proximoSlot + 1) % RECENT_K;
      } else {
        recent := recent + [now];
      }
      n := n + 1;
    }

    method ChaveDeIndice() returns (chave: (nat, nat))
      requires Value().WellSized()
      ensures chave == Value().ChaveDeIndice()
    {
      var tRef := firstAccess;
      for i := 0 to |recent|
        invariant tRef == if i == 0 then firstAccess else Max(MaxOf(recent[..i]), firstAccess)
      {
        assert recent[..i + 1][..i] == recent[..i];
        tRef := Max(recent[i], tRef);
      }
      assert recent[..|recent|] == recent;
      chave := (if n == 0 then 0 else FloorLog2(n), tRef);
    }

    method RawSum(p: Decay, now: nat) returns (sum: real)
      requires Value().WellSized()
      ensures sum == Value().RawSum(p, now)
    {
      if n == 0 {
        return 0.0;
      }
      sum := 0.0;
      for i := 0 to |recent|
        invariant sum == SumMass(p, recent[..i], now)
      {
        assert recent[..i + 1][..i] == recent[..i];
        sum := sum + p.mass(Age(now, recent[i]));
      }
      assert recent[..|recent|] == recent;
      var k := |recent|;
      if n > k {
        var oldest := if k == RECENT_K then recent[proximoSlot] else if k > 0 then recent[0] else now;
        sum := sum + Tail(p, n - k, firstAccess, oldest, now);
      }
    }
  }

  function Resized(faixas: Faixas, size: nat): (r: Faixas)
    ensures |r| == Max(|faixas|, size)
  {
    if |faixas| < size then faixas + seq(size - |faixas|, _ => {}) else faixas
  }

  function Indexed(faixas: Faixas, id: EventId, chave: Chave): Faixas {
    var larger := Resized(faixas, chave.0 + 1);
    larger[chave.0 := larger[chave.0] + {(chave.1, id)}]
  }

  function Desindexed(faixas: Faixas, id: EventId, chave: Chave): Faixas {
    if chave.0 < |faixas| then faixas[chave.0 := faixas[chave.0] - {(chave.1, id)}] else faixas
  }

  lemma DesindexedEntry(faixas: Faixas, chave: Chave, id: EventId, b: nat, e: Entry)
    requires b < |faixas|
    ensures |Desindexed(faixas, id, chave)| == |faixas|
    ensures e in Desindexed(faixas, id, chave)[b] <==> e in faixas[b] && (b != chave.0 || e != (chave.1, id))
  {}

  lemma DesindexedDrops(faixas: Faixas, chaves: Chaves, id: EventId)
    requires Indexes(faixas, chaves) && id in chaves
    ensures Indexes(Desindexed(faixas, id, chaves[id]), chaves - {id})
  {
    var less := Desindexed(faixas, id, chaves[id]);
    assert Listed(faixas, chaves[id], id);
    forall i: EventId | i in chaves && i != id
      ensures Listed(less, chaves[i], i)
    {
      assert Listed(faixas, chaves[i], i);
      DesindexedEntry(faixas, chaves[id], id, chaves[i].0, (chaves[i].1, i));
    }
    forall b: nat, e: Entry | b < |less| && e in less[b]
      ensures e.1 != id && e.1 in chaves && chaves[e.1] == (b, e.0)
    {
      DesindexedEntry(faixas, chaves[id], id, b, e);
    }
  }

  lemma IndexedAdds(faixas: Faixas, chaves: Chaves, id: EventId, chave: Chave)
    requires Indexes(faixas, chaves) && id !in chaves
    ensures Indexes(Indexed(faixas, id, chave), chaves[id := chave])
  {
    var more, next := Indexed(faixas, id, chave), chaves[id := chave];
    forall b: nat, e: Entry | b < |more| && e in more[b]
      ensures e.1 in next && next[e.1] == (b, e.0)
    {
      assert (chave == (b, e.0) && e.1 == id) || (b < |faixas| && e in faixas[b]);
    }
    forall i: EventId | i in next
      ensures Listed(more, next[i], i)
    {
      assert i == id || Listed(faixas, chaves[i], i);
    }
  }

  /** `entry(id).or_default()` */
  function Current(recs: RecordMap, id: EventId): Record {
    if id in recs then recs[id] else EMPTY
  }

  function Touched(recs: RecordMap, id: EventId, now: nat): RecordMap
    requires Current(recs, id).WellSized()
  {
    recs[id := Current(recs, id).Access(now)]
  }

  /** Creating the entry and then accessing it is one map update. */
  lemma TouchedInSteps(recs: RecordMap, id: EventId, now: nat)
    requires Current(recs, id).WellSized()
    ensures var created := recs[id := Current(recs, id)];
            created[id := created[id].Access(now)] == Touched(recs, id, now)
  {}

  lemma ChavesUpdate(recs: RecordMap, id: EventId, r: Record)
    ensures ChavesOf(recs[id := r]) == ChavesOf(recs)[id := r.ChaveDeIndice()]
  {}

  lemma OneLess(recs: RecordMap, left: set<EventId>, id: EventId)
    requires id in left && id in recs
    ensures recs - (left - {id}) == (recs - left)[id := recs[id]]
  {}

  /** Every record is indexed except those in `left`. */
  ghost predicate IndexedBut(faixas: Faixas, recs: RecordMap, left: set<EventId>) {
    Indexes(faixas, ChavesOf(recs - left))
  }

  lemma NothingIndexed(recs: RecordMap)
    ensures IndexedBut([], recs, recs.Keys)
  {
    assert recs - recs.Keys == map[];
  }

  lemma AllIndexed(faixas: Faixas, recs: RecordMap)
    requires IndexedBut(faixas, recs, {})
    ensures Indexes(faixas, ChavesOf(recs))
  {
    assert recs - {} == recs;
  }

  lemma IndexOneMore(faixas: Faixas, recs: RecordMap, left: set<EventId>, id: EventId)
    requires IndexedBut(faixas, recs, left) && id in left && id in recs
    ensures IndexedBut(Indexed(faixas, id, recs[id].ChaveDeIndice()), recs, left - {id})
  {
    IndexedAdds(faixas, ChavesOf(recs - left), id, recs[id].ChaveDeIndice());
    OneLess(recs, left, id);
    ChavesUpdate(recs - left, id, recs[id]);
  }

  lemma ChavesTouched(recs: RecordMap, id: EventId, now: nat)
    requires Current(recs, id).WellSized()
    ensures var after := ChavesOf(Touched(recs, id, now)); after == ChavesOf(recs)[id := after[id]]
  {}

  /** The records of a checkpoint, in the arbitrary order the map yields them. */
  datatype Snapshot = Snapshot(watermark: nat, records: seq<(EventId, Saved)>)

  /** A restore collects the pairs into a map: a repeated id keeps the last. */
  function RestoredMap(records: seq<(EventId, Saved)>): (recs: RecordMap) {
    if records == [] then map[]
    else
      var last := records[|records| - 1];
      RestoredMap(records[..|records| - 1])[last.0 := Restored(last.1)]
  }

  /** A restored map has the ids of the snapshot, each with its last record. */
  lemma {:induction false} RestoredMapKeepsLast(records: seq<(EventId, Saved)>, id: EventId)
    ensures id !in RestoredMap(records) ==> forall i :: 0 <= i < |records| ==> records[i].0 != id
    ensures id in RestoredMap(records) ==>
              exists i :: 0 <= i < |records| && records[i].0 == id && RestoredMap(records)[id] == Restored(records[i].1)
                && forall j :: i < j < |records| ==> records[j].0 != id
  {
    if records != [] {
      var front, last := records[..|records| - 1], records[|records| - 1];
      RestoredMapKeepsLast(front, id);
      assert records == front + [last];
    }
  }

  /** `records` lists each record of `recs` once, as the checkpoint saves it. */
  ghost predicate Describes(records: seq<(EventId, Saved)>, recs: RecordMap) {
    && (forall i :: 0 <= i < |records| ==>
          records[i].0 in recs && recs[records[i].0].n <= U64_MAX && records[i].1 == Save(recs[records[i].0]))
    && (forall i, j :: 0 <= i < j < |records| ==> records[i].0 != records[j].0)
    && (forall id: EventId :: id in recs ==> exists i :: 0 <= i < |records| && records[i].0 == id)
  }

  class ActivationStore {
    var mapa: map<EventId, ActivationRecord>
    var faixas: Faixas
    var watermark: nat
    const decay: Decay
    ghost var registos: RecordMap  // the value of every record in `mapa`

    /** Distinct ids own distinct records, of legal size and with the ghost values. */
    ghost predicate OwnsRecords()
      reads this`mapa, this`registos, mapa.Values
    {
      && mapa.Keys == registos.Keys
      && (forall id :: id in mapa ==> mapa[id].Value() == registos[id])
      && (forall i, j :: i in mapa && j in mapa && i != j ==> mapa[i] != mapa[j])
      && AllWellSized(registos)
    }

    ghost predicate Valid()
      reads this`mapa, this`registos, this`faixas, mapa.Values
    {
      OwnsRecords() && Indexes(faixas, ChavesOf(registos))
    }

    constructor (decay: Decay)
      ensures Valid() && registos == map[] && watermark == 0 && this.decay == decay
    {
      this.decay := decay;
      mapa, faixas, watermark, registos := map[], [], 0, map[];
    }

    method Indexar(id: EventId, chave: (nat, nat))
      modifies this`faixas
      ensures faixas == Indexed(old(faixas), id, chave)
    {
      var (faixa, tRef) := chave;
      if |faixas| <= faixa {
        faixas := faixas + seq(faixa + 1 - |faixas|, _ => {});
      }
      faixas := faixas[faixa := faixas[faixa] + {(tRef, id)}];
    }

    method Desindexar(id: EventId, chave: (nat, nat))
      modifies this`faixas
      ensures faixas == Desindexed(old(faixas), id, chave)
    {
      var (faixa, tRef) := chave;
      if faixa < |faixas| {
        faixas := faixas[faixa := faixas[faixa] - {(tRef, id)}];
      }
    }

    /** Move an id's entry to its new key. */
    method Reindexar(id: EventId, antes: Option<Chave>, depois: Chave, ghost chaves: Chaves, ghost novas: Chaves)
      requires Indexes(faixas, chaves) && novas == chaves[id := depois]
      requires antes == if id in chaves then Some(chaves[id]) else None
      modifies this`faixas
      ensures Indexes(faixas, novas)
    {
      if antes != Some(depois) {
        if antes.Some? {
          Desindexar(id, antes.value);
          DesindexedDrops(old(faixas), chaves, id);
        }
        IndexedAdds(faixas, chaves - {id}, id, depois);
        Indexar(id, depois);
        assert (chaves - {id})[id := depois] == chaves[id := depois];
      } else {
        assert chaves[id := depois] == chaves;
      }
    }

    /** The record of `id`, created empty when there is none. */
    method Entrada(id: EventId) returns (registo: ActivationRecord)
      requires OwnsRecords()
      modifies this`mapa, this`registos
      ensures OwnsRecords()
      ensures forall i :: i in mapa ==> fresh(mapa[i]) || (i in old(mapa) && mapa[i] == old(mapa[i]))
      ensures id in mapa && mapa[id] == registo
      ensures registos == old(registos)[id := Current(old(registos), id)]
    {
      if id in mapa {
        registo := mapa[id];
      } else {
        registo := new ActivationRecord();
        mapa := mapa[id := registo];
      }
      registos := registos[id := Current(registos, id)];
    }

    /** The current key of an id's record, if it has one. */
    method ChaveDe(id: EventId) returns (chave: Option<Chave>)
      requires OwnsRecords()
      ensures chave == if id in registos then Some(registos[id].ChaveDeIndice()) else None
    {
      if id in mapa {
        var c := mapa[id].ChaveDeIndice();
        chave := Some(c);
      } else {
        chave := None;
      }
    }

    /** Update the record of `id` in place, leaving the index alone. */
    method Aceder(id: EventId, now: nat) returns (depois: Chave)
      requires OwnsRecords() && id in mapa && mapa[id].n < U64_MAX
      modifies mapa[id], this`registos
      ensures OwnsRecords()
      ensures registos == old(registos)[id := old(registos)[id].Access(now)]
      ensures depois == registos[id].ChaveDeIndice()
    {
      mapa[id].Access(now);
      registos := registos[id := registos[id].Access(now)];
      depois := mapa[id].ChaveDeIndice();
    }

    /** The access itself, with the keys before and after it. */
    method Registar(id: EventId, now: nat) returns (antes: Option<Chave>, depois: Chave)
      requires OwnsRecords() && Current(registos, id).n < U64_MAX
      modifies this`mapa, this`registos, mapa.Values
      ensures OwnsRecords()
      ensures forall i :: i in mapa ==> fresh(mapa[i]) || (i in old(mapa) && mapa[i] == old(mapa[i]))
      ensures registos == Touched(old(registos), id, now)
      ensures antes == if id in old(registos) then Some(old(registos)[id].ChaveDeIndice()) else None
      ensures depois == registos[id].ChaveDeIndice()
    {
      TouchedInSteps(registos, id, now);
      antes := ChaveDe(id);
      var _ := Entrada(id);
      depois := Aceder(id, now);
    }

    /** Record an access. The index entry moves with the record even when an
        out-of-order access makes its newest instant go down. */
    method Touch(id: EventId, now: nat)
      requires Valid() && Current(registos, id).n < U64_MAX
      modifies this`mapa, this`registos, this`faixas, mapa.Values
      ensures Valid()
      ensures forall i :: i in mapa ==> fresh(mapa[i]) || (i in old(mapa) && mapa[i] == old(mapa[i]))
      ensures registos == Touched(old(registos), id, now)
    {
      ChavesTouched(registos, id, now);
      var antes, depois := Registar(id, now);
      Reindexar(id, antes, depois, ChavesOf(old(registos)), ChavesOf(registos));
    }

    method Score(id: EventId, now: nat) returns (score: Option<real>)
      requires Valid()
      ensures score == if id in registos then Some(decay.ln(registos[id].RawSum(decay, now))) else None
    {
      if id in mapa {
        var sum := mapa[id].RawSum(decay, now);
        score := Some(decay.ln(sum));
      } else {
        score := None;
      }
    }

    /** The first entry of a band still to be visited. */
    method Peek(cursor: set<Entry>) returns (e: Entry)
      requires cursor != {}
      ensures IsFirst(e, cursor)
    {
      FirstExists(cursor);
      e :| e in cursor && forall f :: f in cursor && f != e ==> Earlier(e, f);
    }

    /** The cursor with the largest bound; the first of them on a tie. */
    method MelhorCursor(cursores: Faixas, now: nat) returns (escolhido: Option<(nat, real)>)
      ensures escolhido.None? ==> forall b :: 0 <= b < |cursores| ==> cursores[b] == {}
      ensures escolhido.Some? ==>
                && BoundOf(decay, cursores, escolhido.value.0, escolhido.value.1, now)
                && Covers(decay, escolhido.value.1, cursores, |cursores|, now)
    {
      escolhido := None;
      for i := 0 to |cursores|
        invariant escolhido.None? ==> forall b :: 0 <= b < i ==> cursores[b] == {}
        invariant escolhido.Some? ==>
                    && BoundOf(decay, cursores, escolhido.value.0, escolhido.value.1, now)
                    && Covers(decay, escolhido.value.1, cursores, i, now)
      {
        if cursores[i] != {} {
          var e := Peek(cursores[i]);
          var limite := Limite(decay, i, e.0, now);
          FirstCovers(decay, cursores, i, e, now);
          if escolhido.None? || limite > escolhido.value.1 {
            escolhido := Some((i, limite));
          }
        }
      }
    }

    /** `melhores.push`, then `pop` the worst when there are more than `k`. */
    method Guardar(melhores: seq<R.Hit>, hit: R.Hit, k: nat, ghost hits: set<R.Hit>) returns (r: seq<R.Hit>)
      requires k > 0 && melhores == R.Top(hits, k) && hit !in hits
      ensures r == R.Top(hits + {hit}, k)
    {
      R.PushKeepsTop(hits, k, hit);
      r := R.Insert(melhores, hit);
      if |r| > k {
        r := r[..k];
      }
    }

    /** The hit of one record, as `top_k` and the full sort compute it. */
    method Pontuar(id: EventId, now: nat) returns (hit: R.Hit)
      requires OwnsRecords() && id in mapa
      ensures hit == HitOf(decay, id, registos[id], now)
    {
      var sum := mapa[id].RawSum(decay, now);
      hit := R.Hit(id, decay.cast(decay.ln(sum)));
    }

    /** Whether `top_k` gives up the index for the full sort. */
    predicate UsaTotal(k: nat)
      reads this
    {
      !(decay.d > 0.0) || k >= |mapa|
    }

    /** The cursor to advance, or none when the walk is over: all entries are
        visited, or the largest bound left is strictly below the `k`-th score. */
    method Escolher(cursores: Faixas, melhores: seq<R.Hit>, now: u64, k: nat, ghost seen: set<EventId>)
        returns (escolhido: Option<nat>)
      requires Valid() && k > 0 && seen <= registos.Keys && Remaining(cursores, faixas, seen)
      requires melhores == R.Top(HitsOf(decay, registos, seen, now), k)
      ensures escolhido.None? && Lawful(decay) && AllSane(registos) ==> melhores == TopOf(decay, registos, now, k)
      ensures escolhido.Some? ==> exists limite :: Promising(decay, cursores, escolhido.value, limite, melhores, now, k)
    {
      var melhor := MelhorCursor(cursores, now);
      if melhor.None? {
        NoneLeft(decay, registos, cursores, faixas, seen, now, k);
        return None;
      }
      var (i, limite) := melhor.value;
      StopOrGoOn(decay, registos, cursores, faixas, seen, i, limite, melhores, now, k);
      if |melhores| == k {
        var kEsimo := melhores[k - 1].score;
        if decay.cast(limite + FOLGA_DO_LIMITE) < kEsimo {
          return None;
        }
      }
      return Some(i);
    }

    /** Score the next record of a cursor and keep it if it is among the best. */
    method Avancar(cursores: Faixas, melhores: seq<R.Hit>, i: nat, now: nat, k: nat, ghost seen: set<EventId>)
        returns (restantes: Faixas, lista: seq<R.Hit>, id: EventId)
      requires Valid() && k > 0 && seen <= registos.Keys && Remaining(cursores, faixas, seen)
      requires melhores == R.Top(HitsOf(decay, registos, seen, now), k)
      requires i < |cursores| && cursores[i] != {}
      ensures id in registos && id !in seen && Remaining(restantes, faixas, seen + {id})
      ensures lista == R.Top(HitsOf(decay, registos, seen + {id}, now), k)
    {
      var e := Peek(cursores[i]);
      id := e.1;
      NextIsNew(cursores, faixas, ChavesOf(registos), seen, i, e);
      restantes := cursores[i := cursores[i] - {e}];
      var hit := Pontuar(id, now);
      HitsGrow(decay, registos, seen, id, now);
      lista := Guardar(melhores, hit, k, HitsOf(decay, registos, seen, now));
    }

    /** The walk over the bands by descending bound. */
    method Percorrer(now: u64, k: nat) returns (hits: seq<R.Hit>)
      requires Valid() && k > 0
      ensures Lawful(decay) && AllSane(registos) ==> hits == TopOf(decay, registos, now, k)
    {
      var cursores := faixas;
      hits := [];
      ghost var seen: set<EventId> := {};
      assert HitsOf(decay, registos, seen, now) == {};
      while true
        invariant seen <= registos.Keys && Remaining(cursores, faixas, seen)
        invariant hits == R.Top(HitsOf(decay, registos, seen, now), k)
        decreases registos.Keys - seen
      {
        var escolhido := Escolher(cursores, hits, now, k, seen);
        if escolhido.None? {
          return;
        }
        var id;
        cursores, hits, id := Avancar(cursores, hits, escolhido.value, now, k, seen);
        seen := seen + {id};
      }
    }

    /** The `k` most active records at `now`. The early stop loses nothing: the
        result is the first `k` of the full sort, in the same order. */
    method TopK(now: u64, k: nat) returns (hits: seq<R.Hit>)
      requires Valid()
      ensures k == 0 || !(decay.d > 0.0) || k >= |registos| || (Lawful(decay) && AllSane(registos)) ==>
                hits == TopOf(decay, registos, now, k) && MostActive(decay, registos, now, k, hits)
    {
      TopIsMostActive(decay, registos, now, k);
      assert |mapa.Keys| == |registos.Keys|;
      if k == 0 {
        hits := [];
      } else if UsaTotal(k) {
        hits := TopKTotal(now, k);
      } else {
        hits := Percorrer(now, k);
      }
    }

    /** `select_nth_unstable_by(k)` and `truncate(k)`: the `k` best, in some order. */
    method SelecionarMelhores(hits: seq<R.Hit>, k: nat, ghost all: set<R.Hit>) returns (best: seq<R.Hit>)
      requires k > 0 && Lists(hits, all)
      ensures Lists(best, set h | h in R.Top(all, k))
    {
      best := [];
      for i := 0 to |hits|
        invariant best == R.Top(Prefix(hits, i), k)
      {
        PrefixGrows(hits, i);
        best := Guardar(best, hits[i], k, Prefix(hits, i));
      }
      assert Prefix(hits, |hits|) == all;
      R.TopHolds(all, k);
    }

    /** `sort_by` with the result order. */
    method Ordenar(hits: seq<R.Hit>) returns (r: seq<R.Hit>)
      requires Distinct(hits)
      ensures R.Sorted(r) && forall h :: h in r <==> h in hits
    {
      r := [];
      for i := 0 to |hits|
        invariant R.Sorted(r) && forall h :: h in r <==> h in hits[..i]
      {
        assert hits[..i + 1] == hits[..i] + [hits[i]];
        R.InsertSorts(r, hits[i]);
        r := R.Insert(r, hits[i]);
      }
      assert hits[..|hits|] == hits;
    }

    /** The full sort: the reference, and the path taken when bounds are useless. */
    method TopKTotal(now: nat, k: nat) returns (hits: seq<R.Hit>)
      requires OwnsRecords() && k > 0
      ensures hits == TopOf(decay, registos, now, k) && MostActive(decay, registos, now, k, hits)
    {
      TopIsMostActive(decay, registos, now, k);
      ghost var all := HitsOf(decay, registos, registos.Keys, now);
      hits := TodosOsHits(now);
      HitsCount(decay, registos, registos.Keys, now);
      R.TopHolds(all, k);
      if k < |hits| {
        hits := SelecionarMelhores(hits, k, all);
      } else {
        AllAreTop(hits, all, k);
      }
      hits := Ordenar(hits);
      R.RankSorted(all);
      R.SortedUnique(hits, R.Top(all, k));
    }

    /** One hit per record, in the arbitrary order the map yields them. */
    method TodosOsHits(now: nat) returns (hits: seq<R.Hit>)
      requires OwnsRecords()
      ensures ListsHits(decay, registos, hits, registos.Keys, now)
    {
      hits := [];
      var left := mapa.Keys;
      ghost var done: set<EventId> := {};
      while left != {}
        invariant left <= mapa.Keys && done == registos.Keys - left
        invariant ListsHits(decay, registos, hits, done, now)
        decreases |left|
      {
        var id :| id in left;
        var hit := Pontuar(id, now);
        ListsGrow(decay, registos, hits, done, id, now);
        hits := hits + [hit];
        left, done := left - {id}, done + {id};
      }
    }

    /** The saved form of every record, in the arbitrary order the map yields them. */
    method Checkpoint() returns (snap: Snapshot)
      requires OwnsRecords()
      ensures snap.watermark == watermark && Describes(snap.records, registos)
    {
      var records: seq<(EventId, Saved)> := [];
      var left := mapa.Keys;
      assert registos - left == map[];
      while left != {}
        invariant left <= mapa.Keys && Describes(records, registos - left)
        decreases |left|
      {
        var id :| id in left;
        var saved := Guardado(id);
        DescribesOneMore(records, registos - left, id, registos[id]);
        OneLess(registos, left, id);
        records := records + [(id, saved)];
        left := left - {id};
      }
      assert registos - left == registos;
      snap := Snapshot(watermark, records);
    }

    method Guardado(id: EventId) returns (saved: Saved)
      requires OwnsRecords() && id in mapa
      ensures registos[id].n <= U64_MAX && saved == Save(registos[id])
    {
      assert registos[id].WellSized();
      saved := Saved(mapa[id].recent, mapa[id].n, mapa[id].firstAccess);
    }

    /** Rebuild the map from a snapshot, whatever it holds, and the index from
        the map. Without a snapshot nothing changes. */
    method Restore(snap: Option<Snapshot>) returns (restored: bool)
      requires Valid()
      modifies this
      ensures Valid() && restored == snap.Some?
      ensures restored ==> registos == RestoredMap(snap.value.records) && watermark == snap.value.watermark
      ensures !restored ==> registos == old(registos) && faixas == old(faixas) && watermark == old(watermark)
      ensures restored ==> forall id :: id in mapa ==> fresh(mapa[id])
    {
      if snap.None? {
        return false;
      }
      Recolher(snap.value.records);
      Reconstruir();
      watermark := snap.value.watermark;
      restored := true;
    }

    /** The records of a snapshot, collected into a new map. */
    method Recolher(records: seq<(EventId, Saved)>)
      modifies this`mapa, this`registos
      ensures OwnsRecords() && registos == RestoredMap(records)
      ensures forall id :: id in mapa ==> fresh(mapa[id])
    {
      mapa, registos := map[], map[];
      for i := 0 to |records|
        invariant OwnsRecords() && registos == RestoredMap(records[..i])
        invariant forall id :: id in mapa ==> fresh(mapa[id])
      {
        assert records[..i + 1][..i] == records[..i];
        var (id, saved) := records[i];
        var registo := new ActivationRecord.FromSaved(saved);
        mapa := mapa[id := registo];
        registos := registos[id := Restored(saved)];
      }
      assert records[..|records|] == records;
    }

    /** Index every record from nothing. */
    method Reconstruir()
      requires OwnsRecords()
      modifies this`faixas
      ensures Indexes(faixas, ChavesOf(registos))
    {
      faixas := [];
      var left := mapa.Keys;
      NothingIndexed(registos);
      while left != {}
        invariant left <= mapa.Keys && OwnsRecords() && IndexedBut(faixas, registos, left)
        decreases |left|
      {
        var id :| id in left;
        IndexarMais(left, id);
        left := left - {id};
      }
      AllIndexed(faixas, registos);
    }

    /** One record more is indexed. */
    method IndexarMais(ghost left: set<EventId>, id: EventId)
      requires OwnsRecords() && id in mapa && id in left && IndexedBut(faixas, registos, left)
      modifies this`faixas
      ensures IndexedBut(faixas, registos, left - {id})
    {
      var chave := ChaveDe(id);
      IndexOneMore(faixas, registos, left, id);
      Indexar(id, chave.value);
    }

    /** Back to an empty store. */
    method Reset()
      modifies this
      ensures Valid() && registos == map[] && watermark == 0
    {
      mapa, faixas, registos, watermark := map[], [], map[], 0;
    }

    /** An event replayed from the log: the watermark never goes back, even when
        events arrive out of order. */
    method Apply(lsn: nat, id: EventId, tsHlc: nat)
      requires Valid() && Current(registos, id).n < U64_MAX
      modifies this, mapa.Values
      ensures Valid()
      ensures registos == Touched(old(registos), id, tsHlc / 65536)
      ensures watermark == Max(old(watermark), lsn)
    {
      Touch(id, tsHlc / 65536);
      watermark := Max(watermark, lsn);
    }
  }

  lemma DescribesOneMore(records: seq<(EventId, Saved)>, recs: RecordMap, id: EventId, r: Record)
    requires Describes(records, recs) && id !in recs && r.n <= U64_MAX
    ensures Describes(records + [(id, Save(r))], recs[id := r])
  {
    var more, next := records + [(id, Save(r))], recs[id := r];
    assert more[|records|].0 == id;
    forall i: EventId | i in next
      ensures exists j :: 0 <= j < |more| && more[j].0 == i
    {
      if i != id {
        var j :| 0 <= j < |records| && records[j].0 == i;
        assert more[j].0 == i;
      }
    }
  }

  /** A checkpoint of records whose slots `n` implies restores them all exactly. */
  lemma RestoreUndoesCheckpoint(records: seq<(EventId, Saved)>, recs: RecordMap)
    requires Describes(records, recs)
    requires forall id :: id in recs ==> recs[id].n <= U64_MAX && Restored(Save(recs[id])) == recs[id]
    ensures RestoredMap(records) == recs
  {
    if records == [] {
      assert recs == map[];
    } else {
      var front, last := records[..|records| - 1], records[|records| - 1];
      var less := recs - {last.0};
      DescribesFront(records, recs);
      RestoreUndoesCheckpoint(front, less);
      assert recs == less[last.0 := recs[last.0]];
    }
  }

  lemma DescribesFront(records: seq<(EventId, Saved)>, recs: RecordMap)
    requires Describes(records, recs) && records != []
    ensures Describes(records[..|records| - 1], recs - {records[|records| - 1].0})
  {
    var front, last := records[..|records| - 1], records[|records| - 1];
    assert forall i :: 0 <= i < |front| ==> front[i] == records[i];
    forall id: EventId | id in recs && id != last.0
      ensures exists i :: 0 <= i < |front| && front[i].0 == id
    {
      var i :| 0 <= i < |records| && records[i].0 == id;
      assert front[i].0 == id;
    }
  }

  // ---- whole runs ----------------------------------------------------------

  /** What happens to a store: an access, a reset, or the restore of the
      checkpoint taken after the first `taken` operations. */
  datatype Op = Touch(id: EventId, now: nat) | Reset | Restore(taken: nat)

  /** The records left by a sequence of operations on an empty store. That a
      restore gives back the records of the checkpoint is CheckpointRoundTrip. */
  ghost function ReplayAll(ops: seq<Op>): (recs: RecordMap)
    requires |ops| <= U64_MAX
    ensures forall id :: id in recs ==> recs[id].WellSized() && recs[id].n <= |ops|
    decreases |ops|
  {
    if ops == [] then map[]
    else
      var before := ops[..|ops| - 1];
      match ops[|ops| - 1]
      case Touch(id, now) => Touched(ReplayAll(before), id, now)
      case Reset => map[]
      case Restore(taken) => ReplayAll(before[..Min(taken, |before|)])
  }

  /** The accesses of `id` that the store still knows of, in order. */
  ghost function History(ops: seq<Op>, id: EventId): (times: seq<nat>)
    ensures |times| <= |ops|
    decreases |ops|
  {
    if ops == [] then []
    else
      var before := ops[..|ops| - 1];
      match ops[|ops| - 1]
      case Touch(i, now) => if i == id then History(before, id) + [now] else History(before, id)
      case Reset => []
      case Restore(taken) => History(before[..Min(taken, |before|)], id)
  }

  /** After any operations a record is exactly what its own accesses left: it
      holds its own trace, it is sane, and a checkpoint would restore it. */
  lemma {:induction false} ReplayAllIsPerRecord(ops: seq<Op>, id: EventId)
    requires |ops| <= U64_MAX
    ensures id in ReplayAll(ops) <==> History(ops, id) != []
    ensures Represents(Current(ReplayAll(ops), id), History(ops, id))
    ensures id in ReplayAll(ops) ==>
            Sane(ReplayAll(ops)[id]) && Restored(Save(ReplayAll(ops)[id])) == ReplayAll(ops)[id]
    decreases |ops|
  {
    if ops != [] {
      var before := ops[..|ops| - 1];
      match ops[|ops| - 1] {
        case Touch(i, now) =>
          ReplayAllIsPerRecord(before, id);
          if i == id {
            AccessKeeps(Current(ReplayAll(before), id), History(before, id), now);
          }
        case Reset =>
        case Restore(taken) =>
          ReplayAllIsPerRecord(before[..Min(taken, |before|)], id);
      }
    }
    if id in ReplayAll(ops) {
      RestoredExactly(ReplayAll(ops)[id]);
    }
  }

  /** Every record a run leaves is sane, so `top_k` is exact on it. */
  lemma ReplayAllSane(ops: seq<Op>)
    requires |ops| <= U64_MAX
    ensures AllSane(ReplayAll(ops))
  {
    forall id | id in ReplayAll(ops)
      ensures Sane(ReplayAll(ops)[id])
    {
      ReplayAllIsPerRecord(ops, id);
    }
  }

  /** Checkpoint then restore is the identity on every store a run can reach;
      touches, scores and `top_k` depend on the store only through its records. */
  lemma CheckpointRoundTrip(ops: seq<Op>, records: seq<(EventId, Saved)>)
    requires |ops| <= U64_MAX && Describes(records, ReplayAll(ops))
    ensures RestoredMap(records) == ReplayAll(ops)
  {
    forall id | id in ReplayAll(ops)
      ensures Restored(Save(ReplayAll(ops)[id])) == ReplayAll(ops)[id]
    {
      ReplayAllIsPerRecord(ops, id);
    }
    RestoreUndoesCheckpoint(records, ReplayAll(ops));
  }
}
