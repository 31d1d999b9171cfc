/** Statistical correlation of the third console: pairs of nodes scored by the
    rare features they share, accumulated through an inverted index. A node is
    its set of features; how those are read from a row is not part of this model. */
module Correlations {
  import opened Numbers
  import opened Traversals

  type Feature = nat  // compared only
  type Nodes = seq<set<Feature>>
  type Key = (nat, nat)

  /** A pair's accumulated weight and the features that gave it. */
  datatype Entry = Entry(w: real, f: seq<(Feature, real)>)

  type Pairs = map<Key, Entry>

  /** The nodes having a feature, in order. */
  function Members(nodes: Nodes, x: Feature): seq<nat> {
    if nodes == [] then []
    else Members(nodes[..|nodes| - 1], x) + if x in nodes[|nodes| - 1] then [|nodes| - 1] else []
  }

  /** Document frequency. */
  function Df(nodes: Nodes, x: Feature): nat {
    |Members(nodes, x)|
  }

  function Total(nodes: Nodes): nat {
    Max(1, |nodes|)
  }

  /** The largest useful document frequency: a tenth of the nodes, at least 3. */
  function Cap(nodes: Nodes): nat {
    Max(3, Total(nodes) / 10)
  }

  /** `math.log((N + 1) / df)` */
  function Idf(log: real -> real, nodes: Nodes, x: Feature): real
    requires Df(nodes, x) > 0
  {
    log((Total(nodes) + 1) as real / Df(nodes, x) as real)
  }

  /** The frequencies that make a feature count: from 2 to the cap, and to 40. */
  predicate Counts(nodes: Nodes, x: Feature) {
    2 <= Df(nodes, x) <= Cap(nodes) && Df(nodes, x) <= 40
  }

  // ---- the pairwise definition ---------------------------------------------

  /** The counting features of `done` that nodes `i` and `j` share. */
  ghost function Shared(nodes: Nodes, done: set<Feature>, i: nat, j: nat): set<Feature>
    requires i < |nodes| && j < |nodes|
  {
    set x | x in done && x in nodes[i] && x in nodes[j] && Counts(nodes, x)
  }

  ghost function Features(nodes: Nodes): set<Feature> {
    set i, x | 0 <= i < |nodes| && x in nodes[i] :: x
  }

  function SumW(f: seq<(Feature, real)>): real {
    if f == [] then 0.0 else SumW(f[..|f| - 1]) + f[|f| - 1].1
  }

  /** A list of features names each feature of `s` once and no other. */
  ghost predicate ListsOnce(f: seq<(Feature, real)>, s: set<Feature>) {
    && (forall k, l :: 0 <= k < l < |f| ==> f[k].0 != f[l].0)
    && (forall k :: 0 <= k < |f| ==> f[k].0 in s)
    && (forall x :: x in s ==> exists k :: 0 <= k < |f| && f[k].0 == x)
  }

  /** Every feature of a list is there with its own weight. */
  ghost predicate Weighted(log: real -> real, nodes: Nodes, f: seq<(Feature, real)>) {
    forall k :: 0 <= k < |f| ==> Df(nodes, f[k].0) > 0 && f[k].1 == Idf(log, nodes, f[k].0)
  }

  /** An entry lists each feature of `s` once, with its own weight, and its total. */
  ghost predicate EntryFor(log: real -> real, nodes: Nodes, e: Entry, s: set<Feature>) {
    ListsOnce(e.f, s) && Weighted(log, nodes, e.f) && e.w == SumW(e.f)
  }

  /** The accumulated pairs are those of the pairwise definition over `done`. */
  ghost predicate PairwiseOver(log: real -> real, nodes: Nodes, pair: Pairs, done: set<Feature>) {
    && (forall i: nat, j: nat :: (i, j) in pair ==> i < j < |nodes|)
    && (forall i: nat, j: nat :: i < j < |nodes| ==> ((i, j) in pair <==> Shared(nodes, done, i, j) != {}))
    && (forall i: nat, j: nat :: i < j < |nodes| && (i, j) in pair ==>
          EntryFor(log, nodes, pair[(i, j)], Shared(nodes, done, i, j)))
  }

  /** The sum of the weights of a set of features. */
  ghost function TotalIdf(log: real -> real, nodes: Nodes, s: set<Feature>): real
    requires forall x :: x in s ==> Df(nodes, x) > 0
  {
    if s == {} then 0.0 else var x :| x in s; Idf(log, nodes, x) + TotalIdf(log, nodes, s - {x})
  }

  lemma {:induction false} TotalIdfRemove(log: real -> real, nodes: Nodes, s: set<Feature>, x: Feature)
    requires forall y :: y in s ==> Df(nodes, y) > 0
    requires x in s
    ensures TotalIdf(log, nodes, s) == Idf(log, nodes, x) + TotalIdf(log, nodes, s - {x})
  {
    var y :| y in s && TotalIdf(log, nodes, s) == Idf(log, nodes, y) + TotalIdf(log, nodes, s - {y});
    if y != x {
      TotalIdfRemove(log, nodes, s - {y}, x);
      TotalIdfRemove(log, nodes, s - {x}, y);
      assert s - {y} - {x} == s - {x} - {y};
    }
  }

  lemma ListsOneLess(f: seq<(Feature, real)>, s: set<Feature>)
    requires f != [] && ListsOnce(f, s)
    ensures f[|f| - 1].0 in s && ListsOnce(f[..|f| - 1], s - {f[|f| - 1].0})
  {
    var front, last := f[..|f| - 1], f[|f| - 1];
    forall x | x in s - {last.0}
      ensures exists k :: 0 <= k < |front| && front[k].0 == x
    {
      var k :| 0 <= k < |f| && f[k].0 == x;
      assert front[k].0 == x;
    }
  }

  lemma ListsOneMore(f: seq<(Feature, real)>, s: set<Feature>, x: Feature, w: real)
    requires ListsOnce(f, s) && x !in s
    ensures ListsOnce(f + [(x, w)], s + {x})
  {
    var more := f + [(x, w)];
    forall y | y in s + {x}
      ensures exists k :: 0 <= k < |more| && more[k].0 == y
    {
      if y != x {
        var k :| 0 <= k < |f| && f[k].0 == y;
        assert more[k].0 == y;
      } else {
        assert more[|f|].0 == y;
      }
    }
  }

  /** A list of weighted features adds up to the sum over the set it names. */
  lemma {:induction false} ListWeight(log: real -> real, nodes: Nodes, f: seq<(Feature, real)>, s: set<Feature>)
    requires ListsOnce(f, s) && Weighted(log, nodes, f)
    ensures forall x :: x in s ==> Df(nodes, x) > 0
    ensures SumW(f) == TotalIdf(log, nodes, s)
    decreases |f|
  {
    ListedCounts(log, nodes, f, s);
    if f == [] {
      assert s == {};
    } else {
      ListsOneLess(f, s);
      ListWeight(log, nodes, f[..|f| - 1], s - {f[|f| - 1].0});
      TotalIdfRemove(log, nodes, s, f[|f| - 1].0);
    }
  }

  lemma ListedCounts(log: real -> real, nodes: Nodes, f: seq<(Feature, real)>, s: set<Feature>)
    requires ListsOnce(f, s) && Weighted(log, nodes, f)
    ensures forall x :: x in s ==> Df(nodes, x) > 0
  {
    forall x | x in s
      ensures Df(nodes, x) > 0
    {
      var k :| 0 <= k < |f| && f[k].0 == x;
    }
  }

  // ---- members of a feature ------------------------------------------------

  ghost predicate Ascending(s: seq<nat>) {
    forall k, l :: 0 <= k < l < |s| ==> s[k] < s[l]
  }

  lemma {:induction false} MembersAscend(nodes: Nodes, x: Feature)
    ensures Ascending(Members(nodes, x))
    ensures forall i :: i in Members(nodes, x) <==> 0 <= i < |nodes| && x in nodes[i]
  {
    if nodes != [] {
      var front := Members(nodes[..|nodes| - 1], x);
      MembersAscend(nodes[..|nodes| - 1], x);
      assert forall k :: 0 <= k < |front| ==> front[k] in front;
      assert forall i :: i in front + [|nodes| - 1] <==> i in front || i == |nodes| - 1;
    }
  }

  ghost function PairsOf(mem: seq<nat>): set<Key> {
    set a, b | 0 <= a < b < |mem| :: (mem[a], mem[b])
  }

  /** The pairs of members of a feature are the pairs of nodes that share it. */
  lemma MemberPairs(nodes: Nodes, x: Feature, i: nat, j: nat)
    ensures (i, j) in PairsOf(Members(nodes, x)) <==> i < j < |nodes| && x in nodes[i] && x in nodes[j]
  {
    var mem := Members(nodes, x);
    MembersAscend(nodes, x);
    if i < j < |nodes| && x in nodes[i] && x in nodes[j] {
      assert i in mem && j in mem;
      var a :| 0 <= a < |mem| && mem[a] == i;
      var b :| 0 <= b < |mem| && mem[b] == j;
      assert a < b;
    }
  }

  // ---- the inverted index --------------------------------------------------

  ghost predicate CountsUpTo(nodes: Nodes, n: nat, df: map<Feature, nat>)
    requires n <= |nodes|
  {
    && (forall x :: x in df <==> x in Features(nodes[..n]))
    && (forall x :: x in df ==> df[x] == Df(nodes[..n], x))
  }

  lemma FeaturesGrow(nodes: Nodes, n: nat)
    requires n < |nodes|
    ensures Features(nodes[..n + 1]) == Features(nodes[..n]) + nodes[n]
    ensures forall x :: Members(nodes[..n + 1], x) == Members(nodes[..n], x) + if x in nodes[n] then [n] else []
  {
    assert nodes[..n + 1][..n] == nodes[..n];
    assert nodes[..n + 1] == nodes[..n] + [nodes[n]];
    forall x | x in Features(nodes[..n + 1])
      ensures x in Features(nodes[..n]) + nodes[n]
    {
      var i :| 0 <= i < n + 1 && x in nodes[..n + 1][i];
      if i < n { assert nodes[..n][i] == nodes[i]; }
    }
    forall x | x in Features(nodes[..n])
      ensures x in Features(nodes[..n + 1])
    {
      var i :| 0 <= i < n && x in nodes[..n][i];
      assert nodes[..n + 1][i] == nodes[i];
    }
    forall x | x in nodes[n]
      ensures x in Features(nodes[..n + 1])
    {
      assert nodes[..n + 1][n] == nodes[n];
    }
  }

  lemma {:induction false} NoMembers(nodes: Nodes, x: Feature)
    requires x !in Features(nodes)
    ensures Members(nodes, x) == []
  {
    MembersAscend(nodes, x);
    if Members(nodes, x) != [] {
      assert Members(nodes, x)[0] in Members(nodes, x);
    }
  }

  /** Count in how many nodes each feature occurs. */
  method Frequencies(nodes: Nodes) returns (df: map<Feature, nat>)
    ensures df.Keys == Features(nodes)
    ensures forall x :: x in df ==> df[x] == Df(nodes, x)
  {
    df := map[];
    for i := 0 to |nodes|
      invariant CountsUpTo(nodes, i, df)
    {
      ghost var before := df;
      df := CountOne(df, nodes[i]);
      CountsOneMore(nodes, i, before, df);
    }
    assert nodes[..|nodes|] == nodes;
  }

  /** `df` counts one more than `before` for each feature of `f`. */
  ghost predicate Counted(before: map<Feature, nat>, df: map<Feature, nat>, f: set<Feature>) {
    && df.Keys == before.Keys + f
    && forall x :: x in df ==> df[x] == CountOf(before, x) + if x in f then 1 else 0
  }

  lemma CountedOneMore(before: map<Feature, nat>, df: map<Feature, nat>, f: set<Feature>, x: Feature)
    requires Counted(before, df, f) && x !in f
    ensures Counted(before, df[x := CountOf(df, x) + 1], f + {x})
  {}

  /** One more for each feature of a node. */
  method CountOne(before: map<Feature, nat>, f: set<Feature>) returns (df: map<Feature, nat>)
    ensures Counted(before, df, f)
  {
    df := before;
    var left := f;
    ghost var done: set<Feature> := {};
    while left != {}
      invariant Visiting(f, left, done) && Counted(before, df, done)
      decreases |left|
    {
      var x :| x in left;
      Visited(f, left, done, x);
      CountedOneMore(before, df, done, x);
      df := df[x := CountOf(df, x) + 1];
      left, done := left - {x}, done + {x};
    }
    NoneLeft(f, done);
  }

  /** A `Counter`: 0 for a missing key. */
  function CountOf(df: map<Feature, nat>, x: Feature): nat {
    if x in df then df[x] else 0
  }

  lemma DfGrows(nodes: Nodes, i: nat, x: Feature)
    requires i < |nodes|
    ensures Df(nodes[..i + 1], x) == Df(nodes[..i], x) + if x in nodes[i] then 1 else 0
  {
    assert nodes[..i + 1][..i] == nodes[..i];
  }

  /** What the counter says of a feature before node `i` is its frequency so far. */
  lemma CountSoFar(nodes: Nodes, i: nat, df: map<Feature, nat>, x: Feature)
    requires i <= |nodes| && CountsUpTo(nodes, i, df)
    ensures CountOf(df, x) == Df(nodes[..i], x)
  {
    if x !in df {
      NoMembers(nodes[..i], x);
    }
  }

  lemma CountsOneMore(nodes: Nodes, i: nat, before: map<Feature, nat>, df: map<Feature, nat>)
    requires i < |nodes| && CountsUpTo(nodes, i, before)
    requires Counted(before, df, nodes[i])
    ensures CountsUpTo(nodes, i + 1, df)
  {
    FeaturesGrow(nodes, i);
    forall x | x in df
      ensures df[x] == Df(nodes[..i + 1], x)
    {
      DfGrows(nodes, i, x);
      CountSoFar(nodes, i, before, x);
    }
  }

  /** The nodes of each feature whose frequency is between 2 and the cap. */
  method Invert(nodes: Nodes, df: map<Feature, nat>, cap: nat) returns (inv: map<Feature, seq<nat>>)
    requires df.Keys == Features(nodes) && forall x :: x in df ==> df[x] == Df(nodes, x)
    ensures inv.Keys == set x | x in Features(nodes) && 2 <= Df(nodes, x) <= cap
    ensures forall x :: x in inv ==> inv[x] == Members(nodes, x)
  {
    inv := map[];
    for i := 0 to |nodes|
      invariant InvertedUpTo(nodes, i, cap, inv)
    {
      ghost var before := inv;
      inv := InvertOne(inv, nodes[i], i, df, cap);
      InvertsOneMore(nodes, i, df, cap, before, inv);
    }
    assert nodes[..|nodes|] == nodes;
  }

  ghost predicate InvertedUpTo(nodes: Nodes, n: nat, cap: nat, inv: map<Feature, seq<nat>>)
    requires n <= |nodes|
  {
    && (forall x :: x in inv <==> x in Features(nodes[..n]) && 2 <= Df(nodes, x) <= cap)
    && (forall x :: x in inv ==> inv[x] == Members(nodes[..n], x))
  }

  /** `inv` has `i` appended to the lists of the features of `f` in the useful range. */
  ghost predicate Appended(before: map<Feature, seq<nat>>, inv: map<Feature, seq<nat>>, f: set<Feature>,
                           i: nat, df: map<Feature, nat>, cap: nat) {
    && inv.Keys == before.Keys + Useful(f, df, cap)
    && forall x :: x in inv ==> inv[x] == ListOf(before, x) + if x in Useful(f, df, cap) then [i] else []
  }

  lemma AppendedOneMore(before: map<Feature, seq<nat>>, inv: map<Feature, seq<nat>>, f: set<Feature>,
                        i: nat, df: map<Feature, nat>, cap: nat, x: Feature)
    requires Appended(before, inv, f, i, df, cap) && x !in f
    ensures var next := if 2 <= CountOf(df, x) <= cap then inv[x := ListOf(inv, x) + [i]] else inv;
            Appended(before, next, f + {x}, i, df, cap)
  {}

  /** Node `i` joins the list of each of its features of useful frequency. */
  method InvertOne(before: map<Feature, seq<nat>>, f: set<Feature>, i: nat, df: map<Feature, nat>, cap: nat)
      returns (inv: map<Feature, seq<nat>>)
    ensures Appended(before, inv, f, i, df, cap)
  {
    inv := before;
    var left := f;
    ghost var done: set<Feature> := {};
    while left != {}
      invariant Visiting(f, left, done) && Appended(before, inv, done, i, df, cap)
      decreases |left|
    {
      var x :| x in left;
      Visited(f, left, done, x);
      AppendedOneMore(before, inv, done, i, df, cap, x);
      if 2 <= CountOf(df, x) <= cap {
        inv := inv[x := ListOf(inv, x) + [i]];
      }
      left, done := left - {x}, done + {x};
    }
    NoneLeft(f, done);
  }

  function ListOf(inv: map<Feature, seq<nat>>, x: Feature): seq<nat> {
    if x in inv then inv[x] else []
  }

  function Useful(f: set<Feature>, df: map<Feature, nat>, cap: nat): set<Feature> {
    set x | x in f && 2 <= CountOf(df, x) <= cap
  }

  lemma InvertsOneMore(nodes: Nodes, i: nat, df: map<Feature, nat>, cap: nat,
                       before: map<Feature, seq<nat>>, inv: map<Feature, seq<nat>>)
    requires i < |nodes| && InvertedUpTo(nodes, i, cap, before)
    requires df.Keys == Features(nodes) && forall x :: x in df ==> df[x] == Df(nodes, x)
    requires Appended(before, inv, nodes[i], i, df, cap)
    ensures InvertedUpTo(nodes, i + 1, cap, inv)
  {
    FeaturesGrow(nodes, i);
    assert forall x :: x in nodes[i] ==> x in Features(nodes);
    FeaturesWithin(nodes, i);
    forall x | x in inv
      ensures inv[x] == Members(nodes[..i + 1], x)
    {
      if x !in before { NoMembers(nodes[..i], x); }
    }
  }

  lemma FeaturesWithin(nodes: Nodes, n: nat)
    requires n <= |nodes|
    ensures Features(nodes[..n]) <= Features(nodes)
  {
    forall x | x in Features(nodes[..n])
      ensures x in Features(nodes)
    {
      var i :| 0 <= i < n && x in nodes[..n][i];
      assert x in nodes[i];
    }
  }

  // ---- accumulating pairs --------------------------------------------------

  function Extend(e: Entry, x: Feature, w: real): Entry {
    Entry(e.w + w, e.f + [(x, w)])
  }

  /** `pair` is `before` with feature `x` added to the pairs in `keys`. */
  ghost predicate Added(before: Pairs, pair: Pairs, x: Feature, w: real, keys: set<Key>) {
    && pair.Keys == before.Keys + keys
    && (forall k :: k in pair ==>
          pair[k] == if k in keys then Extend(EntryOf(before, k), x, w) else before[k])
  }

  /** `setdefault` */
  function EntryOf(pair: Pairs, k: Key): Entry {
    if k in pair then pair[k] else Entry(0.0, [])
  }

  lemma AddedOneMore(before: Pairs, pair: Pairs, x: Feature, w: real, keys: set<Key>, k: Key)
    requires Added(before, pair, x, w, keys) && k !in keys
    ensures Added(before, pair[k := Extend(EntryOf(pair, k), x, w)], x, w, keys + {k})
  {}

  /** The pairs already touched when the loops stand at positions `ii` and `jj`. */
  ghost function Touched(mem: seq<nat>, ii: nat, jj: nat): set<Key>
    requires ii < jj <= |mem|
  {
    (set a, b | 0 <= a < ii && a < b < |mem| :: (mem[a], mem[b])) + (set b | ii < b < jj :: (mem[ii], mem[b]))
  }

  lemma TouchedNext(mem: seq<nat>, ii: nat, jj: nat)
    requires Ascending(mem) && ii < jj < |mem|
    ensures (mem[ii], mem[jj]) !in Touched(mem, ii, jj)
    ensures Touched(mem, ii, jj + 1) == Touched(mem, ii, jj) + {(mem[ii], mem[jj])}
  {}

  lemma TouchedRow(mem: seq<nat>, ii: nat)
    requires ii < |mem|
    ensures ii + 1 < |mem| ==> Touched(mem, ii, |mem|) == Touched(mem, ii + 1, ii + 2)
    ensures ii + 1 == |mem| ==> Touched(mem, ii, |mem|) == PairsOf(mem)
  {
    var row := set b | ii < b < |mem| :: (mem[ii], mem[b]);
    var rows := set a, b | 0 <= a < ii && a < b < |mem| :: (mem[a], mem[b]);
    var all := set a, b | 0 <= a < ii + 1 && a < b < |mem| :: (mem[a], mem[b]);
    forall e | e in all
      ensures e in rows + row
    {
      var a, b :| 0 <= a < ii + 1 && a < b < |mem| && e == (mem[a], mem[b]);
    }
    assert all == rows + row;
  }

  /** Every pair of members gets the feature once. */
  method AddFeature(before: Pairs, mem: seq<nat>, x: Feature, w: real) returns (pair: Pairs)
    requires Ascending(mem) && |mem| > 0
    ensures Added(before, pair, x, w, PairsOf(mem))
  {
    pair := before;
    assert Touched(mem, 0, 1) == {};
    for ii := 0 to |mem|
      invariant Added(before, pair, x, w, if ii < |mem| then Touched(mem, ii, ii + 1) else PairsOf(mem))
    {
      for jj := ii + 1 to |mem|
        invariant Added(before, pair, x, w, Touched(mem, ii, jj))
      {
        TouchedNext(mem, ii, jj);
        var k := (mem[ii], mem[jj]);
        AddedOneMore(before, pair, x, w, Touched(mem, ii, jj), k);
        pair := pair[k := Extend(EntryOf(pair, k), x, w)];
      }
      TouchedRow(mem, ii);
    }
  }

  lemma ExtendEntry(log: real -> real, nodes: Nodes, e: Entry, s: set<Feature>, x: Feature)
    requires EntryFor(log, nodes, e, s) && x !in s && Df(nodes, x) > 0
    ensures EntryFor(log, nodes, Extend(e, x, Idf(log, nodes, x)), s + {x})
  {
    var w := Idf(log, nodes, x);
    ListsOneMore(e.f, s, x, w);
    assert (e.f + [(x, w)])[..|e.f|] == e.f;
  }

  /** A feature outside the useful range changes no pair. */
  lemma SkipFeature(nodes: Nodes, done: set<Feature>, x: Feature, i: nat, j: nat)
    requires i < |nodes| && j < |nodes| && !(Counts(nodes, x) && x in nodes[i] && x in nodes[j])
    ensures Shared(nodes, done + {x}, i, j) == Shared(nodes, done, i, j)
  {}

  lemma ShareFeature(nodes: Nodes, done: set<Feature>, x: Feature, i: nat, j: nat)
    requires i < |nodes| && j < |nodes| && Counts(nodes, x) && x in nodes[i] && x in nodes[j]
    ensures Shared(nodes, done + {x}, i, j) == Shared(nodes, done, i, j) + {x}
  {}

  /** Adding a counting feature to the pairs of its members keeps the pairwise definition. */
  lemma FeatureKeepsPairwise(log: real -> real, nodes: Nodes, before: Pairs, pair: Pairs, done: set<Feature>,
                             x: Feature)
    requires PairwiseOver(log, nodes, before, done) && x !in done && Counts(nodes, x)
    requires Added(before, pair, x, Idf(log, nodes, x), PairsOf(Members(nodes, x)))
    ensures PairwiseOver(log, nodes, pair, done + {x})
  {
    forall i: nat, j: nat
      ensures (i, j) in pair ==> i < j < |nodes|
    {
      MemberPairs(nodes, x, i, j);
    }
    forall i: nat, j: nat | i < j < |nodes|
      ensures (i, j) in pair <==> Shared(nodes, done + {x}, i, j) != {}
      ensures (i, j) in pair ==> EntryFor(log, nodes, pair[(i, j)], Shared(nodes, done + {x}, i, j))
    {
      PairAfter(log, nodes, before, pair, done, x, i, j);
    }
  }

  lemma PairAfter(log: real -> real, nodes: Nodes, before: Pairs, pair: Pairs, done: set<Feature>, x: Feature,
                  i: nat, j: nat)
    requires PairwiseOver(log, nodes, before, done) && x !in done && Counts(nodes, x)
    requires Added(before, pair, x, Idf(log, nodes, x), PairsOf(Members(nodes, x)))
    requires i < j < |nodes|
    ensures (i, j) in pair <==> Shared(nodes, done + {x}, i, j) != {}
    ensures (i, j) in pair ==> EntryFor(log, nodes, pair[(i, j)], Shared(nodes, done + {x}, i, j))
  {
    MemberPairs(nodes, x, i, j);
    if x in nodes[i] && x in nodes[j] {
      ShareFeature(nodes, done, x, i, j);
      if (i, j) !in before {
        assert EntryFor(log, nodes, EntryOf(before, (i, j)), {});
      }
      ExtendEntry(log, nodes, EntryOf(before, (i, j)), Shared(nodes, done, i, j), x);
    } else {
      SkipFeature(nodes, done, x, i, j);
    }
  }

  lemma UselessKeepsPairwise(log: real -> real, nodes: Nodes, pair: Pairs, done: set<Feature>, x: Feature)
    requires PairwiseOver(log, nodes, pair, done) && !Counts(nodes, x)
    ensures PairwiseOver(log, nodes, pair, done + {x})
  {
    forall i: nat, j: nat | i < j < |nodes|
      ensures Shared(nodes, done + {x}, i, j) == Shared(nodes, done, i, j)
    {
      SkipFeature(nodes, done, x, i, j);
    }
  }

  /** One feature of the index: skipped when it has too many or too few members. */
  method Accumulate(log: real -> real, nodes: Nodes, x: Feature, mem: seq<nat>, before: Pairs, ghost done: set<Feature>)
      returns (pair: Pairs)
    requires mem == Members(nodes, x) && 2 <= Df(nodes, x) <= Cap(nodes) && x !in done
    requires PairwiseOver(log, nodes, before, done)
    ensures PairwiseOver(log, nodes, pair, done + {x})
  {
    if !(2 <= |mem| <= 40) {
      UselessKeepsPairwise(log, nodes, before, done, x);
      return before;
    }
    MembersAscend(nodes, x);
    pair := AddFeature(before, mem, x, Idf(log, nodes, x));
    FeatureKeepsPairwise(log, nodes, before, pair, done, x);
  }

  /** The index alone decides: features it leaves out count for no pair. */
  lemma IndexedEnough(log: real -> real, nodes: Nodes, pair: Pairs, done: set<Feature>)
    requires done == set x | x in Features(nodes) && 2 <= Df(nodes, x) <= Cap(nodes)
    requires PairwiseOver(log, nodes, pair, done)
    ensures PairwiseOver(log, nodes, pair, Features(nodes))
  {
    forall i: nat, j: nat | i < j < |nodes|
      ensures Shared(nodes, done, i, j) == Shared(nodes, Features(nodes), i, j)
    {
    }
  }

  lemma StartsPairwise(log: real -> real, nodes: Nodes)
    ensures PairwiseOver(log, nodes, map[], {})
  {}

  /** The inverted index gives each pair of nodes, once, exactly the features it
      shares among those that count, each listed once with its own weight; pairs
      that share none are absent. */
  method Correlate(log: real -> real, nodes: Nodes) returns (pair: Pairs)
    ensures PairwiseOver(log, nodes, pair, Features(nodes))
  {
    var df := Frequencies(nodes);
    var inv := Invert(nodes, df, Cap(nodes));
    pair := map[];
    StartsPairwise(log, nodes);
    var left := inv.Keys;
    ghost var done: set<Feature> := {};
    while left != {}
      invariant Visiting(inv.Keys, left, done) && PairwiseOver(log, nodes, pair, done)
      decreases |left|
    {
      var x :| x in left;
      Visited(inv.Keys, left, done, x);
      pair := Accumulate(log, nodes, x, inv[x], pair, done);
      left, done := left - {x}, done + {x};
    }
    NoneLeft(inv.Keys, done);
    IndexedEnough(log, nodes, pair, done);
  }

  /** So the weight of a pair is the sum, over the counting features both nodes
      have, of each feature's weight. */
  lemma PairWeight(log: real -> real, nodes: Nodes, pair: Pairs, i: nat, j: nat)
    requires PairwiseOver(log, nodes, pair, Features(nodes)) && i < j < |nodes| && (i, j) in pair
    ensures var s := set x | x in nodes[i] && x in nodes[j] && Counts(nodes, x);
            pair[(i, j)].w == TotalIdf(log, nodes, s)
  {
    var s := set x | x in nodes[i] && x in nodes[j] && Counts(nodes, x);
    assert forall x :: x in nodes[i] ==> x in Features(nodes);
    assert s == Shared(nodes, Features(nodes), i, j);
    ListWeight(log, nodes, pair[(i, j)].f, s);
  }

  // ---- what a weight is, in counts of nodes --------------------------------

  /** How many nodes have the feature. */
  ghost function HowMany(nodes: Nodes, x: Feature): nat {
    |set n | 0 <= n < |nodes| && x in nodes[n]|
  }

  lemma {:induction false} DfIsHowMany(nodes: Nodes, x: Feature)
    ensures Df(nodes, x) == HowMany(nodes, x)
  {
    var having := set n | 0 <= n < |nodes| && x in nodes[n];
    if nodes != [] {
      var last := |nodes| - 1;
      var before := set n | 0 <= n < |nodes[..last]| && x in nodes[..last][n];
      DfIsHowMany(nodes[..last], x);
      assert having == before + if x in nodes[last] then {last} else {};
      assert last !in before;
    } else {
      assert having == {};
    }
  }

  ghost predicate StrictlyIncreasing(log: real -> real) {
    forall x: real, y: real :: 0.0 < x < y ==> log(x) < log(y)
  }

  /** The rarer of two features weighs more, for any strictly increasing logarithm. */
  lemma RarerWeighsMore(log: real -> real, nodes: Nodes, x: Feature, y: Feature)
    requires StrictlyIncreasing(log) && 0 < HowMany(nodes, x) < HowMany(nodes, y)
    ensures Df(nodes, x) > 0 && Df(nodes, y) > 0 && Idf(log, nodes, x) > Idf(log, nodes, y)
  {
    DfIsHowMany(nodes, x);
    DfIsHowMany(nodes, y);
    SmallerDivisor((Total(nodes) + 1) as real, Df(nodes, x) as real, Df(nodes, y) as real);
  }

  lemma SmallerDivisor(n: real, p: real, q: real)
    requires n > 0.0 && 0.0 < p < q
    ensures n / p > n / q > 0.0
  {
    var x, y := n / p, n / q;
    assert x * p == n && y * q == n;
    if y <= 0.0 {
      NotPositive(y, q);
    }
    if x <= y {
      ProductGrows(x, y, p, q);
    }
  }

  lemma NotPositive(y: real, q: real)
    requires y <= 0.0 < q
    ensures y * q <= 0.0
  {}

  lemma ProductGrows(x: real, y: real, p: real, q: real)
    requires x <= y && 0.0 < y && 0.0 < p < q
    ensures x * p < y * q
  {
    assert x * p <= y * p;
    assert y * p < y * q;
  }

  /** Enough nodes have the feature, and few enough. */
  ghost predicate Discriminates(nodes: Nodes, x: Feature) {
    2 <= HowMany(nodes, x) <= 40 && (HowMany(nodes, x) <= 3 || HowMany(nodes, x) <= |nodes| / 10)
  }

  lemma CountsInNodes(nodes: Nodes, x: Feature)
    ensures Counts(nodes, x) <==> Discriminates(nodes, x)
  {
    DfIsHowMany(nodes, x);
  }

  ghost predicate Names(f: seq<(Feature, real)>, x: Feature) {
    exists k :: 0 <= k < |f| && f[k].0 == x
  }

  lemma ListedIs(f: seq<(Feature, real)>, s: set<Feature>, x: Feature)
    requires ListsOnce(f, s)
    ensures Names(f, x) <==> x in s
  {}

  /** The entry of a pair names a feature exactly when both nodes have it and from 2
      to 40 nodes, and no more than 3 or a tenth of them, do. */
  lemma NamedInCounts(log: real -> real, nodes: Nodes, pair: Pairs, i: nat, j: nat, x: Feature)
    requires PairwiseOver(log, nodes, pair, Features(nodes)) && i < j < |nodes| && (i, j) in pair
    ensures Names(pair[(i, j)].f, x) <==> x in nodes[i] && x in nodes[j] && Discriminates(nodes, x)
  {
    var s := Shared(nodes, Features(nodes), i, j);
    assert EntryFor(log, nodes, pair[(i, j)], s);
    ListedIs(pair[(i, j)].f, s, x);
    CountsInNodes(nodes, x);
    assert x in nodes[i] ==> x in Features(nodes);
  }

  /** Each with the weight `log((N + 1) / df)`; they add up to the pair's weight. */
  lemma WeightsInCounts(log: real -> real, nodes: Nodes, pair: Pairs, i: nat, j: nat, k: nat)
    requires PairwiseOver(log, nodes, pair, Features(nodes)) && i < j < |nodes| && (i, j) in pair
    requires k < |pair[(i, j)].f|
    ensures var (x, w) := pair[(i, j)].f[k];
            HowMany(nodes, x) > 0 && w == log((|nodes| + 1) as real / HowMany(nodes, x) as real)
    ensures pair[(i, j)].w == SumW(pair[(i, j)].f)
  {
    EntryOfPair(log, nodes, pair, i, j);
    WeightAt(log, nodes, pair[(i, j)].f, k);
  }

  lemma EntryOfPair(log: real -> real, nodes: Nodes, pair: Pairs, i: nat, j: nat)
    requires PairwiseOver(log, nodes, pair, Features(nodes)) && i < j < |nodes| && (i, j) in pair
    ensures EntryFor(log, nodes, pair[(i, j)], Shared(nodes, Features(nodes), i, j))
  {}

  lemma WeightAt(log: real -> real, nodes: Nodes, f: seq<(Feature, real)>, k: nat)
    requires nodes != [] && k < |f| && Weighted(log, nodes, f)
    ensures HowMany(nodes, f[k].0) > 0 && f[k].1 == log((|nodes| + 1) as real / HowMany(nodes, f[k].0) as real)
  {
    DfIsHowMany(nodes, f[k].0);
  }
}
