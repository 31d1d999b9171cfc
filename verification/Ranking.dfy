/** The result order of `top_k`: score descending, then id ascending, and the
    full sort of a set of hits under it. */
module Ranking {
  import opened Numbers

  datatype Hit = Hit(id: nat, score: real)

  /** `a` is listed before `b`. */
  predicate Before(a: Hit, b: Hit) {
    a.score > b.score || (a.score == b.score && a.id < b.id)
  }

  ghost predicate Sorted(s: seq<Hit>) {
    forall i, j :: 0 <= i < j < |s| ==> Before(s[i], s[j])
  }

  lemma BeforeTransitive(a: Hit, b: Hit, c: Hit)
    ensures Before(a, b) && Before(b, c) ==> Before(a, c)
  {}

  ghost predicate IsBest(best: Hit, hits: set<Hit>) {
    best in hits && forall h :: h in hits && h != best ==> Before(best, h)
  }

  /** Every nonempty set of hits has a best one. */
  lemma {:induction false} BestExists(hits: set<Hit>)
    requires hits != {}
    ensures exists best :: IsBest(best, hits)
  {
    var h :| h in hits;
    var rest := hits - {h};
    assert hits == rest + {h};
    if rest == {} {
      assert IsBest(h, hits);
    } else {
      BestExists(rest);
      var r :| IsBest(r, rest);
      assert IsBest(if Before(r, h) then r else h, hits);
    }
  }

  ghost function Best(hits: set<Hit>): (best: Hit)
    requires hits != {}
    ensures IsBest(best, hits)
  {
    BestExists(hits);
    var b :| IsBest(b, hits);
    b
  }

  /** The full sort of a set of hits. */
  ghost function Rank(hits: set<Hit>): (s: seq<Hit>)
    ensures |s| == |hits| && forall h :: h in s <==> h in hits
  {
    if hits == {} then [] else [Best(hits)] + Rank(hits - {Best(hits)})
  }

  lemma {:induction false} RankSorted(hits: set<Hit>)
    ensures Sorted(Rank(hits))
  {
    if hits != {} {
      var b := Best(hits);
      RankSorted(hits - {b});
      assert forall h :: h in Rank(hits - {b}) ==> Before(b, h);
    }
  }

  /** The first `k` entries of the full sort. */
  ghost function Top(hits: set<Hit>, k: nat): seq<Hit> {
    Rank(hits)[..Min(k, |hits|)]
  }

  lemma {:induction false} SortedUnique(a: seq<Hit>, b: seq<Hit>)
    requires Sorted(a) && Sorted(b)
    requires forall h :: h in a <==> h in b
    ensures a == b
  {
    assert (a != [] ==> a[0] in a) && (b != [] ==> b[0] in b);
    if a != [] && b != [] {
      TailMembers(a);
      TailMembers(b);
      SortedUnique(a[1..], b[1..]);
    }
  }

  lemma TailMembers(s: seq<Hit>)
    requires Sorted(s) && s != []
    ensures Sorted(s[1..])
    ensures forall h :: h in s[1..] <==> h in s && h != s[0]
  {}

  /** `s` holds the `k` best of `hits` in order. */
  ghost predicate HoldsBest(s: seq<Hit>, hits: set<Hit>, k: nat) {
    && Sorted(s)
    && |s| == Min(k, |hits|)
    && (forall x :: x in s ==> x in hits)
    && (forall x, y :: x in s && y in hits && y !in s ==> Before(x, y))
  }

  /** Holding the `k` best in order is being the first `k` of the full sort. */
  lemma TopIs(s: seq<Hit>, hits: set<Hit>, k: nat)
    requires HoldsBest(s, hits, k)
    ensures s == Top(hits, k)
  {
    var rest := set h | h in hits && h !in s;
    RankSorted(rest);
    RankSorted(hits);
    var full := s + Rank(rest);
    assert forall i :: 0 <= i < |s| ==> full[i] in s;
    assert forall i :: |s| <= i < |full| ==> full[i] in Rank(rest);
    SortedUnique(full, Rank(hits));
    assert full[..|s|] == s;
  }

  lemma TopHolds(hits: set<Hit>, k: nat)
    ensures HoldsBest(Top(hits, k), hits, k)
  {
    RankSorted(hits);
    var s, m := Rank(hits), Min(k, |hits|);
    forall x, y | x in s[..m] && y in hits && y !in s[..m]
      ensures Before(x, y)
    {
      var i :| 0 <= i < m && s[i] == x;
      var j :| 0 <= j < |s| && s[j] == y;
      assert forall l :: 0 <= l < m ==> s[l] in s[..m];
    }
  }

  /** How many entries of `s` go before `h`. */
  function Place(s: seq<Hit>, h: Hit): (p: nat)
    ensures p <= |s|
    ensures forall i :: 0 <= i < p ==> !Before(h, s[i])
    ensures p < |s| ==> Before(h, s[p])
  {
    if s == [] || Before(h, s[0]) then 0 else 1 + Place(s[1..], h)
  }

  /** `s` with `h` put in its place. */
  function Insert(s: seq<Hit>, h: Hit): seq<Hit> {
    s[..Place(s, h)] + [h] + s[Place(s, h)..]
  }

  lemma InsertSorts(s: seq<Hit>, h: Hit)
    requires Sorted(s) && h !in s
    ensures Sorted(Insert(s, h)) && |Insert(s, h)| == |s| + 1
    ensures forall x :: x in Insert(s, h) <==> x in s || x == h
  {
    var p, r := Place(s, h), Insert(s, h);
    assert forall i :: 0 <= i < |s| ==> s[i] in s;
    assert forall i :: 0 <= i < |s| ==> if i < p then Before(s[i], h) else Before(h, s[i]);
    forall i, j | 0 <= i < j < |r|
      ensures Before(r[i], r[j])
    {
      assert r[i] == if i < p then s[i] else if i == p then h else s[i - 1];
      assert r[j] == if j < p then s[j] else if j == p then h else s[j - 1];
    }
    InsertMembers(s, h);
  }

  lemma InsertMembers(s: seq<Hit>, h: Hit)
    ensures forall x :: x in Insert(s, h) <==> x in s || x == h
  {
    assert s == s[..Place(s, h)] + s[Place(s, h)..];
  }

  /** Pushing a hit on a bounded best-`k` list and dropping the overflow gives
      the best `k` of the larger set. */
  lemma PushKeepsTop(hits: set<Hit>, k: nat, h: Hit)
    requires k > 0 && h !in hits
    ensures var pushed := Insert(Top(hits, k), h);
            Top(hits + {h}, k) == if |pushed| > k then pushed[..k] else pushed
  {
    var s := Top(hits, k);
    TopHolds(hits, k);
    InsertSorts(s, h);
    var pushed := Insert(s, h);
    if |pushed| > k {
      var r := pushed[..k];
      DroppedIsLast(s, hits, k, h);
      TopIs(r, hits + {h}, k);
    } else {
      AllHeld(s, hits, k);
      TopIs(pushed, hits + {h}, k);
    }
  }

  lemma DroppedIsLast(s: seq<Hit>, hits: set<Hit>, k: nat, h: Hit)
    requires k > 0 && h !in hits && HoldsBest(s, hits, k) && |s| == k
    requires var pushed := Insert(s, h);
             Sorted(pushed) && |pushed| == k + 1 && forall x :: x in pushed <==> x in s || x == h
    ensures HoldsBest(Insert(s, h)[..k], hits + {h}, k)
  {
    var pushed := Insert(s, h);
    var r, last := pushed[..k], pushed[k];
    assert pushed == r + [last];
    assert forall i :: 0 <= i < k ==> pushed[i] in pushed;
    assert last in pushed;
    forall x, y | x in r && y in hits + {h} && y !in r
      ensures Before(x, y)
    {
      assert Before(x, last);
      if y != last {
        assert y in hits && y !in s;
        BeforeTransitive(x, last, y);
      }
    }
  }

  /** A best-`k` list shorter than `k` holds everything. */
  lemma AllHeld(s: seq<Hit>, hits: set<Hit>, k: nat)
    requires HoldsBest(s, hits, k) && |s| < k
    ensures forall h :: h in hits ==> h in s
  {
    TopIs(s, hits, k);
    assert s == Rank(hits);
  }

  /** The early stop: when the best `k` are already held and every hit still
      unseen comes after the worst of them, the best `k` of everything are held. */
  lemma EarlyStop(hits: set<Hit>, more: set<Hit>, k: nat)
    requires 0 < k <= |hits|
    requires |Top(hits, k)| > 0 ==> forall y :: y in more ==> Before(Top(hits, k)[|Top(hits, k)| - 1], y)
    ensures Top(hits + more, k) == Top(hits, k)
  {
    var s := Top(hits, k);
    TopHolds(hits, k);
    assert hits + more == hits + (more - hits);
    forall x, y | x in s && y in hits + more && y !in s
      ensures Before(x, y)
    {
      if y in more {
        var i :| 0 <= i < |s| && s[i] == x;
        BeforeTransitive(x, s[|s| - 1], y);
      }
    }
    TopIs(s, hits + more, k);
  }
}
