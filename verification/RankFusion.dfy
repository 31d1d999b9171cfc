/** Reciprocal-rank fusion of ranked lists of turns, plain and weighted: a
    dictionary of scores in insertion order, then a stable sort by score. */
module RankFusion {
  type Id = string

  /** A ranked list and the weight of its channel. */
  datatype Channel = Channel(ranking: seq<Id>, weight: real)

  function Last<T>(s: seq<T>): T
    requires s != []
  {
    s[|s| - 1]
  }

  function Front<T>(s: seq<T>): seq<T>
    requires s != []
  {
    s[..|s| - 1]
  }

  // ---- what the dictionary holds -------------------------------------------

  function Share(w: real, k0: nat, rank: nat): real {
    w / (k0 + rank + 1) as real
  }

  /** What one ranking adds to the score of `id`. */
  function RankSum(ranking: seq<Id>, w: real, k0: nat, id: Id): real {
    if ranking == [] then 0.0
    else RankSum(Front(ranking), w, k0, id) + if Last(ranking) == id then Share(w, k0, |ranking| - 1) else 0.0
  }

  function Score(channels: seq<Channel>, k0: nat, id: Id): real {
    if channels == [] then 0.0
    else Score(Front(channels), k0, id) + RankSum(Last(channels).ranking, Last(channels).weight, k0, id)
  }

  /** The dictionary's keys, in insertion order. */
  function Seen(before: seq<Id>, ranking: seq<Id>): seq<Id> {
    if ranking == [] then before
    else
      var s := Seen(before, Front(ranking));
      if Last(ranking) in s then s else s + [Last(ranking)]
  }

  function Order(channels: seq<Channel>): seq<Id> {
    if channels == [] then [] else Seen(Order(Front(channels)), Last(channels).ranking)
  }

  ghost predicate Listed(channels: seq<Channel>, id: Id) {
    exists c :: c in channels && id in c.ranking
  }

  predicate NoRepeats(s: seq<Id>) {
    forall i, j :: 0 <= i < j < |s| ==> s[i] != s[j]
  }

  /** `a` occurs in `s` before `b` does. */
  ghost predicate Earlier(s: seq<Id>, a: Id, b: Id) {
    exists i, j :: 0 <= i < j < |s| && s[i] == a && s[j] == b && b !in s[..j]
  }

  lemma {:induction false} SeenMembers(before: seq<Id>, ranking: seq<Id>)
    ensures forall id :: id in Seen(before, ranking) <==> id in before || id in ranking
    ensures NoRepeats(before) ==> NoRepeats(Seen(before, ranking))
    ensures before <= Seen(before, ranking)
  {
    if ranking != [] {
      SeenMembers(before, Front(ranking));
      assert ranking == Front(ranking) + [Last(ranking)];
    }
  }

  lemma {:induction false} OrderMembers(channels: seq<Channel>)
    ensures NoRepeats(Order(channels))
    ensures forall id :: id in Order(channels) <==> Listed(channels, id)
  {
    if channels != [] {
      OrderMembers(Front(channels));
      SeenMembers(Order(Front(channels)), Last(channels).ranking);
      assert channels == Front(channels) + [Last(channels)];
    }
  }

  // ---- the stable sort -----------------------------------------------------

  /** `a` is listed before `b`: a higher score, or the same and inserted first. */
  ghost predicate Ahead(score: Id -> real, order: seq<Id>, a: Id, b: Id) {
    score(a) > score(b) || (score(a) == score(b) && Earlier(order, a, b))
  }

  ghost predicate SortedBy(s: seq<Id>, score: Id -> real, order: seq<Id>) {
    forall i, j :: 0 <= i < j < |s| ==> Ahead(score, order, s[i], s[j])
  }

  /** The fused list: each listed id once, in the order of the scores. */
  ghost predicate IsFusion(fused: seq<Id>, channels: seq<Channel>, k0: nat) {
    && NoRepeats(fused)
    && (forall id :: id in fused <==> Listed(channels, id))
    && SortedBy(fused, id => Score(channels, k0, id), Order(channels))
  }

  function Insert(x: Id, s: seq<Id>, score: Id -> real): seq<Id> {
    if s == [] then [x]
    else if score(Last(s)) >= score(x) then s + [x]
    else Insert(x, Front(s), score) + [Last(s)]
  }

  /** `sorted(..., key=-score)`: stable, highest score first. */
  function StableSort(keys: seq<Id>, score: Id -> real): seq<Id> {
    if keys == [] then [] else Insert(Last(keys), StableSort(Front(keys), score), score)
  }

  lemma {:induction false} InsertMembers(x: Id, s: seq<Id>, score: Id -> real)
    ensures forall id :: id in Insert(x, s, score) <==> id == x || id in s
  {
    if s != [] {
      assert s == Front(s) + [Last(s)];
      InsertMembers(x, Front(s), score);
    }
  }

  lemma {:induction false} InsertSorts(x: Id, s: seq<Id>, score: Id -> real, order: seq<Id>)
    requires SortedBy(s, score, order) && NoRepeats(s) && x !in s
    requires forall y :: y in s ==> Earlier(order, y, x)
    ensures SortedBy(Insert(x, s, score), score, order) && NoRepeats(Insert(x, s, score))
  {
    if s != [] {
      var front, last := Front(s), Last(s);
      assert forall i :: 0 <= i < |s| ==> s[i] in s;
      if score(last) >= score(x) {
        forall i | 0 <= i < |s|
          ensures Ahead(score, order, s[i], x)
        {
          assert i < |s| - 1 ==> Ahead(score, order, s[i], last);
        }
      } else {
        InsertSorts(x, front, score, order);
        InsertMembers(x, front, score);
        forall y | y in Insert(x, front, score)
          ensures Ahead(score, order, y, last) && y != last
        {
          if y in front {
            var i :| 0 <= i < |front| && front[i] == y;
            assert Ahead(score, order, s[i], s[|s| - 1]);
          }
        }
        var r := Insert(x, front, score);
        assert forall i :: 0 <= i < |r| ==> r[i] in r;
      }
    }
  }

  lemma EarlierInLonger(s: seq<Id>, t: seq<Id>, a: Id, b: Id)
    requires Earlier(s, a, b) && s <= t
    ensures Earlier(t, a, b)
  {
    var i, j :| 0 <= i < j < |s| && s[i] == a && s[j] == b && b !in s[..j];
    assert t[..j] == s[..j];
    assert t[i] == a && t[j] == b;
  }

  lemma {:induction false} StableSortSorts(keys: seq<Id>, score: Id -> real, order: seq<Id>)
    requires NoRepeats(keys) && keys <= order
    ensures SortedBy(StableSort(keys, score), score, order) && NoRepeats(StableSort(keys, score))
    ensures forall id :: id in StableSort(keys, score) <==> id in keys
  {
    if keys != [] {
      var front, last := Front(keys), Last(keys);
      StableSortSorts(front, score, order);
      InsertMembers(last, StableSort(front, score), score);
      assert keys == front + [last];
      forall y | y in front
        ensures Earlier(order, y, last)
      {
        var i :| 0 <= i < |front| && front[i] == y;
        assert keys[i] == y && keys[|keys| - 1] == last;
        assert Earlier(keys, y, last);
        EarlierInLonger(keys, order, y, last);
      }
      InsertSorts(last, StableSort(front, score), score, order);
    }
  }

  lemma AheadIsAsymmetric(score: Id -> real, order: seq<Id>, a: Id, b: Id)
    requires NoRepeats(order) && Ahead(score, order, a, b)
    ensures !Ahead(score, order, b, a)
  {}

  /** The order of the fused list leaves no choice. */
  lemma {:induction false} SortedUnique(s: seq<Id>, t: seq<Id>, score: Id -> real, order: seq<Id>)
    requires NoRepeats(order)
    requires SortedBy(s, score, order) && SortedBy(t, score, order)
    requires NoRepeats(s) && NoRepeats(t)
    requires forall id :: id in s <==> id in t
    ensures s == t
  {
    EmptyTogether(s, t);
    if s != [] {
      FirstIsSame(s, t, score, order);
      forall id
        ensures id in s[1..] <==> id in t[1..]
      {
        TailMembers(s, id);
        TailMembers(t, id);
      }
      SortedUnique(s[1..], t[1..], score, order);
      assert s == [s[0]] + s[1..] && t == [t[0]] + t[1..];
    }
  }

  lemma EmptyTogether(s: seq<Id>, t: seq<Id>)
    requires forall id :: id in s <==> id in t
    ensures s == [] <==> t == []
  {
    assert (s != [] ==> s[0] in s) && (t != [] ==> t[0] in t);
  }

  lemma TailMembers(s: seq<Id>, id: Id)
    requires s != [] && NoRepeats(s)
    ensures id in s[1..] <==> id in s && id != s[0]
  {
    if id in s && id != s[0] {
      var i :| 0 <= i < |s| && s[i] == id;
      assert s[1..][i - 1] == id;
    }
  }

  lemma FirstIsSame(s: seq<Id>, t: seq<Id>, score: Id -> real, order: seq<Id>)
    requires NoRepeats(order) && s != [] && t != []
    requires SortedBy(s, score, order) && SortedBy(t, score, order)
    requires forall id :: id in s <==> id in t
    ensures s[0] == t[0]
  {
    assert s[0] in t && t[0] in s;
    var i :| 0 <= i < |s| && s[i] == t[0];
    var j :| 0 <= j < |t| && t[j] == s[0];
    if i > 0 && j > 0 {
      AheadIsAsymmetric(score, order, s[0], t[0]);
    }
  }

  // ---- the two functions ---------------------------------------------------

  /** The inner loop: one ranking into the dictionary. */
  method AddRanking(channels: seq<Channel>, keys: seq<Id>, score: map<Id, real>, ranking: seq<Id>, w: real, k0: nat)
      returns (keys': seq<Id>, score': map<Id, real>)
    requires keys == Order(channels)
    requires forall id :: id in score <==> id in keys
    requires forall id :: id in score ==> score[id] == Score(channels, k0, id)
    ensures keys' == Order(channels + [Channel(ranking, w)])
    ensures forall id :: id in score' <==> id in keys'
    ensures forall id :: id in score' ==> score'[id] == Score(channels + [Channel(ranking, w)], k0, id)
  {
    keys', score' := keys, score;
    UnseenScoresZero(channels, k0);
    for rank := 0 to |ranking|
      invariant keys' == Seen(keys, ranking[..rank])
      invariant forall id :: id in score' <==> id in keys'
      invariant forall id :: (if id in score' then score'[id] else 0.0) ==
                             Score(channels, k0, id) + RankSum(ranking[..rank], w, k0, id)
    {
      var tid := ranking[rank];
      assert Front(ranking[..rank + 1]) == ranking[..rank];
      var was := if tid in score' then score'[tid] else 0.0;
      if tid !in keys' {
        keys' := keys' + [tid];
      }
      score' := score'[tid := was + Share(w, k0, rank)];
    }
    assert ranking[..|ranking|] == ranking;
    assert Front(channels + [Channel(ranking, w)]) == channels;
  }

  lemma {:induction false} UnseenRankSum(ranking: seq<Id>, w: real, k0: nat, id: Id)
    requires id !in ranking
    ensures RankSum(ranking, w, k0, id) == 0.0
  {
    if ranking != [] {
      UnseenRankSum(Front(ranking), w, k0, id);
    }
  }

  lemma {:induction false} UnseenScoresZero(channels: seq<Channel>, k0: nat)
    ensures forall id :: id !in Order(channels) ==> Score(channels, k0, id) == 0.0
  {
    if channels != [] {
      UnseenScoresZero(Front(channels), k0);
      var c := Last(channels);
      SeenMembers(Order(Front(channels)), c.ranking);
      forall id | id !in Order(channels)
        ensures Score(channels, k0, id) == 0.0
      {
        UnseenRankSum(c.ranking, c.weight, k0, id);
      }
    }
  }

  lemma SortIsFusion(channels: seq<Channel>, k0: nat, score: map<Id, real>)
    requires forall id :: id in score <==> id in Order(channels)
    requires forall id :: id in score ==> score[id] == Score(channels, k0, id)
    ensures IsFusion(StableSort(Order(channels), id => if id in score then score[id] else 0.0), channels, k0)
  {
    OrderMembers(channels);
    var key := id => if id in score then score[id] else 0.0;
    StableSortSorts(Order(channels), key, Order(channels));
    var s := StableSort(Order(channels), key);
    assert forall i :: 0 <= i < |s| ==> s[i] in s && key(s[i]) == Score(channels, k0, s[i]);
  }

  function Unweighted(rankings: seq<seq<Id>>): seq<Channel> {
    Alike(rankings, 1.0)
  }

  function Alike(rankings: seq<seq<Id>>, w: real): seq<Channel> {
    seq(|rankings|, i requires 0 <= i < |rankings| => Channel(rankings[i], w))
  }

  /** `_rrf`. */
  method Rrf(rankings: seq<seq<Id>>, k0: nat := 60) returns (fused: seq<Id>)
    ensures IsFusion(fused, Unweighted(rankings), k0)
  {
    var keys: seq<Id>, score: map<Id, real> := [], map[];
    for i := 0 to |rankings|
      invariant keys == Order(Unweighted(rankings)[..i])
      invariant forall id :: id in score <==> id in keys
      invariant forall id :: id in score ==> score[id] == Score(Unweighted(rankings)[..i], k0, id)
    {
      var channels := Unweighted(rankings);
      keys, score := AddRanking(channels[..i], keys, score, rankings[i], 1.0, k0);
      assert channels[..i + 1] == channels[..i] + [Channel(rankings[i], 1.0)];
    }
    assert Unweighted(rankings)[..|rankings|] == Unweighted(rankings);
    SortIsFusion(Unweighted(rankings), k0, score);
    fused := StableSort(keys, id => if id in score then score[id] else 0.0);
  }

  /** `_wrrf`. */
  method Wrrf(channels: seq<Channel>, k0: nat := 60) returns (fused: seq<Id>)
    ensures IsFusion(fused, channels, k0)
  {
    var keys: seq<Id>, score: map<Id, real> := [], map[];
    for i := 0 to |channels|
      invariant keys == Order(channels[..i])
      invariant forall id :: id in score <==> id in keys
      invariant forall id :: id in score ==> score[id] == Score(channels[..i], k0, id)
    {
      keys, score := AddRanking(channels[..i], keys, score, channels[i].ranking, channels[i].weight, k0);
      assert channels[..i + 1] == channels[..i] + [channels[i]];
    }
    assert channels[..|channels|] == channels;
    SortIsFusion(channels, k0, score);
    fused := StableSort(keys, id => if id in score then score[id] else 0.0);
  }

  // ---- what the fused order respects ---------------------------------------

  /** Every ranking that lists `b` lists it once and lists `a` before it. */
  ghost predicate Preferred(channels: seq<Channel>, a: Id, b: Id) {
    forall c :: c in channels && b in c.ranking ==> Precedes(c.ranking, a, b)
  }

  ghost predicate Precedes(ranking: seq<Id>, a: Id, b: Id) {
    exists i, j :: 0 <= i < j < |ranking| && ranking[i] == a && ranking[j] == b
      && b !in ranking[..j] && b !in ranking[j + 1..]
  }

  ghost predicate NonNegative(channels: seq<Channel>) {
    forall c :: c in channels ==> c.weight >= 0.0
  }

  lemma ShareShrinks(w: real, k0: nat, i: nat, j: nat)
    requires w >= 0.0 && i <= j
    ensures Share(w, k0, i) >= Share(w, k0, j) >= 0.0
  {
    var p, q := (k0 + i + 1) as real, (k0 + j + 1) as real;
    var x, y := Share(w, k0, i), Share(w, k0, j);
    assert x * p == w && y * q == w && 0.0 < p <= q;
    if y < 0.0 {
      NegativeProduct(y, q);
    }
    if y > x {
      Products(x, y, p, q);
    }
  }

  lemma NegativeProduct(y: real, q: real)
    requires y < 0.0 < q
    ensures y * q < 0.0
  {}

  lemma Products(x: real, y: real, p: real, q: real)
    requires x < y && 0.0 <= y && 0.0 < p <= q
    ensures x * p < y * q
  {
    assert x * p < y * p;
    assert y * p <= y * q;
  }

  lemma {:induction false} RankSumAtLeast(ranking: seq<Id>, w: real, k0: nat, a: Id, i: nat)
    requires w >= 0.0 && i < |ranking| && ranking[i] == a
    ensures RankSum(ranking, w, k0, a) >= Share(w, k0, i)
  {
    RankSumNonNegative(Front(ranking), w, k0, a);
    ShareShrinks(w, k0, |ranking| - 1, |ranking| - 1);
    if i < |ranking| - 1 {
      RankSumAtLeast(Front(ranking), w, k0, a, i);
    }
  }

  lemma {:induction false} RankSumNonNegative(ranking: seq<Id>, w: real, k0: nat, a: Id)
    requires w >= 0.0
    ensures RankSum(ranking, w, k0, a) >= 0.0
  {
    if ranking != [] {
      RankSumNonNegative(Front(ranking), w, k0, a);
      ShareShrinks(w, k0, |ranking| - 1, |ranking| - 1);
    }
  }

  lemma {:induction false} RankSumOnce(ranking: seq<Id>, w: real, k0: nat, b: Id, j: nat)
    requires j < |ranking| && ranking[j] == b && b !in ranking[..j] && b !in ranking[j + 1..]
    ensures RankSum(ranking, w, k0, b) == Share(w, k0, j)
  {
    var front := Front(ranking);
    if j == |ranking| - 1 {
      UnseenRankSum(front, w, k0, b);
    } else {
      assert Last(ranking) in ranking[j + 1..];
      assert front[..j] == ranking[..j];
      assert front[j + 1..] <= ranking[j + 1..];
      RankSumOnce(front, w, k0, b, j);
    }
  }

  lemma {:induction false} PreferredScores(channels: seq<Channel>, k0: nat, a: Id, b: Id)
    requires NonNegative(channels) && Preferred(channels, a, b)
    ensures Score(channels, k0, a) >= Score(channels, k0, b)
  {
    if channels != [] {
      var c := Last(channels);
      assert channels == Front(channels) + [c] && c in channels;
      PreferredScores(Front(channels), k0, a, b);
      if b in c.ranking {
        var i, j :| 0 <= i < j < |c.ranking| && c.ranking[i] == a && c.ranking[j] == b
          && b !in c.ranking[..j] && b !in c.ranking[j + 1..];
        RankSumOnce(c.ranking, c.weight, k0, b, j);
        RankSumAtLeast(c.ranking, c.weight, k0, a, i);
        ShareShrinks(c.weight, k0, i, j);
      } else {
        UnseenRankSum(c.ranking, c.weight, k0, b);
        RankSumNonNegative(c.ranking, c.weight, k0, a);
      }
    }
  }

  /** Listed earlier in every ranking is inserted earlier too. */
  lemma {:induction false} PreferredSeenFirst(channels: seq<Channel>, a: Id, b: Id)
    requires Preferred(channels, a, b) && Listed(channels, b)
    ensures Earlier(Order(channels), a, b)
  {
    var front, c := Front(channels), Last(channels);
    assert channels == front + [c] && c in channels;
    OrderMembers(front);
    SeenMembers(Order(front), c.ranking);
    if Listed(front, b) {
      PreferredSeenFirst(front, a, b);
      EarlierInLonger(Order(front), Order(channels), a, b);
    } else {
      assert b in c.ranking;
      var i, j :| 0 <= i < j < |c.ranking| && c.ranking[i] == a && c.ranking[j] == b
        && b !in c.ranking[..j] && b !in c.ranking[j + 1..];
      SeenFirst(Order(front), c.ranking, a, b, i, j);
    }
  }

  lemma {:induction false} SeenFirst(before: seq<Id>, ranking: seq<Id>, a: Id, b: Id, i: nat, j: nat)
    requires i < j < |ranking| && ranking[i] == a && ranking[j] == b && b !in ranking[..j] && b !in before
    ensures Earlier(Seen(before, ranking), a, b)
  {
    var front := Front(ranking);
    if j < |ranking| - 1 {
      assert front[..j] == ranking[..j];
      SeenFirst(before, front, a, b, i, j);
      EarlierInLonger(Seen(before, front), Seen(before, ranking), a, b);
    } else {
      SeenMembers(before, front);
      var s := Seen(before, front);
      assert front[i] == a && front == ranking[..j] && a in front;
      assert a in s;
      var p :| 0 <= p < |s| && s[p] == a;
      var t := s + [b];
      assert Seen(before, ranking) == t;
      assert t[p] == a && t[|s|] == b && t[..|s|] == s;
    }
  }

  lemma SortedPlaces(s: seq<Id>, score: Id -> real, order: seq<Id>, i: nat, j: nat)
    requires NoRepeats(order) && SortedBy(s, score, order)
    requires i < |s| && j < |s| && Ahead(score, order, s[i], s[j])
    ensures i < j
  {
    if j < i {
      AheadIsAsymmetric(score, order, s[j], s[i]);
    }
  }

  /** With weights that are not negative, an id that every ranking puts ahead of
      another stays ahead of it. */
  lemma FusionRespectsRankings(fused: seq<Id>, channels: seq<Channel>, k0: nat, a: Id, b: Id)
    requires IsFusion(fused, channels, k0) && NonNegative(channels)
    requires Preferred(channels, a, b) && Listed(channels, b)
    ensures Earlier(fused, a, b)
  {
    PreferredScores(channels, k0, a, b);
    PreferredSeenFirst(channels, a, b);
    OrderMembers(channels);
    var score := (id: Id) => Score(channels, k0, id);
    assert Ahead(score, Order(channels), a, b);
    assert a in Order(channels);
    assert a in fused && b in fused;
    var i :| 0 <= i < |fused| && fused[i] == a;
    var j :| 0 <= j < |fused| && fused[j] == b;
    SortedPlaces(fused, score, Order(channels), i, j);
    assert b !in fused[..j];
  }

  // ---- what a rank is worth ------------------------------------------------

  /** The id occurs in the ranking once, at this place. */
  ghost predicate OnlyAt(ranking: seq<Id>, id: Id, place: nat) {
    place < |ranking| && ranking[place] == id && forall i :: 0 <= i < |ranking| && i != place ==> ranking[i] != id
  }

  lemma RankSumAt(ranking: seq<Id>, w: real, k0: nat, id: Id, place: nat)
    requires OnlyAt(ranking, id, place)
    ensures RankSum(ranking, w, k0, id) == w / (k0 + place + 1) as real
  {
    RankSumOnce(ranking, w, k0, id, place);
  }

  lemma ScoreOfThree(channels: seq<Channel>, k0: nat, id: Id)
    requires |channels| == 3
    ensures Score(channels, k0, id) ==
            RankSum(channels[0].ranking, channels[0].weight, k0, id)
            + RankSum(channels[1].ranking, channels[1].weight, k0, id)
            + RankSum(channels[2].ranking, channels[2].weight, k0, id)
  {
    var two := Front(channels);
    var one := Front(two);
    assert Front(one) == [] && Last(one) == channels[0] && Last(two) == channels[1] && Last(channels) == channels[2];
    assert Score(one, k0, id) == RankSum(channels[0].ranking, channels[0].weight, k0, id);
    assert Score(two, k0, id) == Score(one, k0, id) + RankSum(channels[1].ranking, channels[1].weight, k0, id);
  }

  /** An id that only the first channel lists, at rank `i`, against one that only
      the second and the third list, at ranks `j` and `k`: which comes first is a
      comparison of the weights and ranks alone, and a tie goes to the first. */
  lemma OneAgainstTwo(fused: seq<Id>, channels: seq<Channel>, k0: nat, a: Id, b: Id, i: nat, j: nat, k: nat)
    requires |channels| == 3 && IsFusion(fused, channels, k0) && a != b
    requires OnlyAt(channels[0].ranking, a, i) && a !in channels[1].ranking && a !in channels[2].ranking
    requires OnlyAt(channels[1].ranking, b, j) && OnlyAt(channels[2].ranking, b, k) && b !in channels[0].ranking
    ensures Earlier(fused, a, b) <==>
            channels[0].weight / (k0 + i + 1) as real >=
            channels[1].weight / (k0 + j + 1) as real + channels[2].weight / (k0 + k + 1) as real
  {
    ThreeScores(channels, k0, a, b, i, j, k);
    assert Listed(channels, a) && Listed(channels, b) by {
      assert channels[0] in channels && a in channels[0].ranking;
      assert channels[1] in channels && b in channels[1].ranking;
    }
    FirstChannelFirst(channels, a, b, i);
    OrderedBy(fused, channels, k0, a, b);
  }

  lemma ThreeScores(channels: seq<Channel>, k0: nat, a: Id, b: Id, i: nat, j: nat, k: nat)
    requires |channels| == 3
    requires OnlyAt(channels[0].ranking, a, i) && a !in channels[1].ranking && a !in channels[2].ranking
    requires OnlyAt(channels[1].ranking, b, j) && OnlyAt(channels[2].ranking, b, k) && b !in channels[0].ranking
    ensures Score(channels, k0, a) == channels[0].weight / (k0 + i + 1) as real
    ensures Score(channels, k0, b) ==
            channels[1].weight / (k0 + j + 1) as real + channels[2].weight / (k0 + k + 1) as real
  {
    ScoreOfThree(channels, k0, a);
    ScoreOfThree(channels, k0, b);
    RankSumAt(channels[0].ranking, channels[0].weight, k0, a, i);
    UnseenRankSum(channels[1].ranking, channels[1].weight, k0, a);
    UnseenRankSum(channels[2].ranking, channels[2].weight, k0, a);
    UnseenRankSum(channels[0].ranking, channels[0].weight, k0, b);
    RankSumAt(channels[1].ranking, channels[1].weight, k0, b, j);
    RankSumAt(channels[2].ranking, channels[2].weight, k0, b, k);
  }

  /** What the first channel lists is inserted before what it does not. */
  lemma FirstChannelFirst(channels: seq<Channel>, a: Id, b: Id, i: nat)
    requires |channels| == 3 && OnlyAt(channels[0].ranking, a, i) && b !in channels[0].ranking && Listed(channels, b)
    ensures Earlier(Order(channels), a, b)
  {
    var two := Front(channels);
    var one := Front(two);
    assert |one| == 1 && Front(one) == [] && Last(one) == channels[0];
    assert Order(Front(one)) == [];
    var before := Order(one);
    assert before == Seen([], channels[0].ranking);
    SeenMembers([], channels[0].ranking);
    SeenMembers(before, Last(two).ranking);
    SeenMembers(Order(two), Last(channels).ranking);
    OrderMembers(channels);
    PrefixFirst(before, Order(channels), a, b);
  }

  lemma PrefixFirst(before: seq<Id>, order: seq<Id>, a: Id, b: Id)
    requires before <= order && a in before && b !in before && b in order && NoRepeats(order)
    ensures Earlier(order, a, b)
  {
    var i :| 0 <= i < |before| && before[i] == a;
    var j :| 0 <= j < |order| && order[j] == b;
    assert order[i] == a && i < j;
  }

  /** In the fused list one of two ids comes first exactly when it is ahead. */
  lemma OrderedBy(fused: seq<Id>, channels: seq<Channel>, k0: nat, a: Id, b: Id)
    requires IsFusion(fused, channels, k0) && a != b && Listed(channels, a) && Listed(channels, b)
    requires Earlier(Order(channels), a, b)
    ensures Earlier(fused, a, b) <==> Score(channels, k0, a) >= Score(channels, k0, b)
  {
    var score := (id: Id) => Score(channels, k0, id);
    OrderMembers(channels);
    assert a in fused && b in fused;
    var p :| 0 <= p < |fused| && fused[p] == a;
    var q :| 0 <= q < |fused| && fused[q] == b;
    if Score(channels, k0, a) >= Score(channels, k0, b) {
      assert Ahead(score, Order(channels), a, b);
      SortedPlaces(fused, score, Order(channels), p, q);
      assert b !in fused[..q];
    } else {
      assert Ahead(score, Order(channels), b, a);
      SortedPlaces(fused, score, Order(channels), q, p);
    }
  }

  // ---- equal weights -------------------------------------------------------

  /** What multiplying by the weight `w` does to scores: it respects sums and
      the order, and turns the shares of weight 1 into those of weight `w`. */
  ghost predicate Scales(f: real -> real, w: real, k0: nat) {
    Additive(f) && Increasing(f) && forall rank: nat :: Share(w, k0, rank) == f(Share(1.0, k0, rank))
  }

  ghost predicate Additive(f: real -> real) {
    f(0.0) == 0.0 && forall x, y :: AddsAt(f, x, y)
  }

  ghost predicate AddsAt(f: real -> real, x: real, y: real) {
    f(x + y) == f(x) + f(y)
  }

  ghost predicate Increasing(f: real -> real) {
    forall x, y :: x > y ==> f(x) > f(y)
  }

  ghost function Scaling(w: real, k0: nat): (f: real -> real)
    requires w > 0.0
    ensures Scales(f, w, k0)
  {
    var f := (x: real) => w * x;
    ScalingAdds(w, f);
    ScalingIncreases(w, f);
    ScalingShares(w, f, k0);
    f
  }

  lemma ScalingAdds(w: real, f: real -> real)
    requires forall x :: f(x) == w * x
    ensures Additive(f)
  {
    forall x, y
      ensures AddsAt(f, x, y)
    {
      Distributes(w, x, y);
    }
  }

  lemma Distributes(w: real, x: real, y: real)
    ensures w * (x + y) == w * x + w * y
  {}

  lemma ScalingIncreases(w: real, f: real -> real)
    requires w > 0.0 && forall x :: f(x) == w * x
    ensures Increasing(f)
  {
    forall x, y | x > y
      ensures f(x) > f(y)
    {
      ProductIncreases(w, x, y);
    }
  }

  lemma ProductIncreases(w: real, x: real, y: real)
    requires w > 0.0 && x > y
    ensures w * x > w * y
  {
    assert w * (x - y) > 0.0;
  }

  lemma ScalingShares(w: real, f: real -> real, k0: nat)
    requires forall x :: f(x) == w * x
    ensures forall rank: nat :: Share(w, k0, rank) == f(Share(1.0, k0, rank))
  {
    forall rank: nat
      ensures Share(w, k0, rank) == f(Share(1.0, k0, rank))
    {
      QuotientScales(w, (k0 + rank + 1) as real);
    }
  }

  lemma QuotientScales(w: real, p: real)
    requires p > 0.0
    ensures w / p == w * (1.0 / p)
  {}

  lemma {:induction false} RankSumScales(ranking: seq<Id>, f: real -> real, w: real, k0: nat, id: Id)
    requires Scales(f, w, k0)
    ensures RankSum(ranking, w, k0, id) == f(RankSum(ranking, 1.0, k0, id))
  {
    if ranking != [] {
      RankSumScales(Front(ranking), f, w, k0, id);
      assert AddsAt(f, RankSum(Front(ranking), 1.0, k0, id), Share(1.0, k0, |ranking| - 1));
    }
  }

  lemma AlikeGrows(rankings: seq<seq<Id>>, w: real, k0: nat, id: Id)
    requires rankings != []
    ensures Score(Alike(rankings, w), k0, id) ==
            Score(Alike(Front(rankings), w), k0, id) + RankSum(Last(rankings), w, k0, id)
    ensures Order(Alike(rankings, w)) == Seen(Order(Alike(Front(rankings), w)), Last(rankings))
  {
    assert Front(Alike(rankings, w)) == Alike(Front(rankings), w);
  }

  lemma {:induction false} AlikeScales(rankings: seq<seq<Id>>, f: real -> real, w: real, k0: nat, id: Id)
    requires Scales(f, w, k0)
    ensures Score(Alike(rankings, w), k0, id) == f(Score(Unweighted(rankings), k0, id))
    ensures Order(Alike(rankings, w)) == Order(Unweighted(rankings))
  {
    if rankings != [] {
      var front, last := Front(rankings), Last(rankings);
      AlikeScales(front, f, w, k0, id);
      RankSumScales(last, f, w, k0, id);
      AlikeGrows(rankings, w, k0, id);
      AlikeGrows(rankings, 1.0, k0, id);
      assert AddsAt(f, Score(Unweighted(front), k0, id), RankSum(last, 1.0, k0, id));
    }
  }

  lemma AheadScales(rankings: seq<seq<Id>>, f: real -> real, w: real, k0: nat, a: Id, b: Id)
    requires Scales(f, w, k0)
    requires Ahead(id => Score(Alike(rankings, w), k0, id), Order(Unweighted(rankings)), a, b)
    ensures Ahead(id => Score(Unweighted(rankings), k0, id), Order(Unweighted(rankings)), a, b)
  {
    AlikeScales(rankings, f, w, k0, a);
    AlikeScales(rankings, f, w, k0, b);
  }

  /** `_wrrf` with one positive weight for every channel is `_rrf`. */
  lemma EqualWeightsAreUnweighted(fused: seq<Id>, plain: seq<Id>, rankings: seq<seq<Id>>, w: real, k0: nat)
    requires w > 0.0
    requires IsFusion(fused, Alike(rankings, w), k0) && IsFusion(plain, Unweighted(rankings), k0)
    ensures fused == plain
  {
    var f, order := Scaling(w, k0), Order(Unweighted(rankings));
    var score := (id: Id) => Score(Unweighted(rankings), k0, id);
    OrderMembers(Unweighted(rankings));
    OrderMembers(Alike(rankings, w));
    AlikeScales(rankings, f, w, k0, "");
    forall i, j | 0 <= i < j < |fused|
      ensures Ahead(score, order, fused[i], fused[j])
    {
      assert Ahead(id => Score(Alike(rankings, w), k0, id), order, fused[i], fused[j]);
      AheadScales(rankings, f, w, k0, fused[i], fused[j]);
    }
    SortedUnique(fused, plain, score, order);
  }
}
