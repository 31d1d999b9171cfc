/** The question sampler of the LoCoMo benchmark: a round robin over the
    categories of the questions that carry evidence. Shuffling is a parameter. */
module QuestionSampler {
  import opened Numbers

  datatype Question = Question(category: int, evidence: bool, text: string)

  /** One bucket per category, in the order the categories first occur. */
  type Buckets = seq<seq<Question>>

  function Wanted(perConv: int): nat {
    if perConv < 0 then 0 else perConv
  }

  // ---- whose turn ----------------------------------------------------------

  /** The bucket of turn `i` among `m`: the rotation starts over after the last. */
  function Turn(i: nat, m: nat): (c: nat)
    requires m > 0
    ensures c < m
  {
    if i == 0 then 0 else if Turn(i - 1, m) == m - 1 then 0 else Turn(i - 1, m) + 1
  }

  /** `i % m`, counted turn by turn. */
  method TurnOf(i: nat, m: nat) returns (c: nat)
    requires m > 0
    ensures c == Turn(i, m)
  {
    TurnIsRemainder(i, m);
    return i % m;
  }

  lemma {:induction false} TurnIsRemainder(i: nat, m: nat)
    requires m > 0
    ensures Turn(i, m) == i % m
  {
    if i == 0 {
      Remainder(0, m, 0, 0);
    } else {
      TurnIsRemainder(i - 1, m);
      NextRemainder(i - 1, m);
    }
  }

  lemma NextRemainder(i: nat, m: nat)
    requires m > 0
    ensures (i + 1) % m == if i % m == m - 1 then 0 else i % m + 1
  {
    var q, r := i / m, i % m;
    assert i == m * q + r;
    if r == m - 1 {
      assert i + 1 == m * (q + 1);
      Remainder(i + 1, m, q + 1, 0);
    } else {
      Remainder(i + 1, m, q, r + 1);
    }
  }

  lemma Remainder(i: nat, m: nat, q: nat, r: nat)
    requires r < m && i == m * q + r
    ensures i % m == r
  {
    var p := i / m;
    assert i == m * p + i % m;
    if p < q {
      TimesMonotone(m, p + 1, q);
    } else if p > q {
      TimesMonotone(m, q + 1, p);
    }
  }

  lemma TimesMonotone(m: nat, p: nat, q: nat)
    requires p <= q
    ensures m * p <= m * q
  {}

  /** How many of the turns 0, ..., i - 1 fall on bucket `c` of `m`. */
  function Visits(i: nat, m: nat, c: nat): nat
    requires c < m
  {
    if i == 0 then 0 else Visits(i - 1, m, c) + if Turn(i - 1, m) == c then 1 else 0
  }

  /** Full rounds in the turns before `i`. */
  function Rounds(i: nat, m: nat): nat
    requires m > 0
  {
    if i == 0 then 0 else Rounds(i - 1, m) + if Turn(i - 1, m) == m - 1 then 1 else 0
  }

  /** Every bucket has had the full rounds, and one more turn if it comes early
      enough in the unfinished round. */
  lemma {:induction false} VisitsAre(i: nat, m: nat, c: nat)
    requires c < m
    ensures Visits(i, m, c) == Rounds(i, m) + if c < Turn(i, m) then 1 else 0
  {
    if i > 0 {
      VisitsAre(i - 1, m, c);
    }
  }

  // ---- buckets -------------------------------------------------------------

  function WithEvidence(qa: seq<Question>): seq<Question> {
    if qa == [] then []
    else WithEvidence(qa[..|qa| - 1]) + if qa[|qa| - 1].evidence then [qa[|qa| - 1]] else []
  }

  /** The questions with evidence, as often as they occur, and no others. */
  lemma {:induction false} EvidenceIsKept(qa: seq<Question>, q: Question)
    ensures multiset(WithEvidence(qa))[q] == if q.evidence then multiset(qa)[q] else 0
  {
    if qa != [] {
      EvidenceIsKept(qa[..|qa| - 1], q);
      assert qa == qa[..|qa| - 1] + [qa[|qa| - 1]];
    }
  }

  function OfCategory(s: seq<Question>, category: int): seq<Question> {
    if s == [] then []
    else OfCategory(s[..|s| - 1], category) + if s[|s| - 1].category == category then [s[|s| - 1]] else []
  }

  lemma OfCategorySnoc(s: seq<Question>, q: Question, category: int)
    ensures OfCategory(s + [q], category) == OfCategory(s, category) + if q.category == category then [q] else []
  {
    assert (s + [q])[..|s|] == s;
  }

  /** How many of the list are of the category. */
  lemma {:induction false} OfCategoryCounts(s: seq<Question>, category: int)
    ensures |OfCategory(s, category)| == |set i | 0 <= i < |s| && s[i].category == category|
  {
    var those := set i | 0 <= i < |s| && s[i].category == category;
    if s != [] {
      var last := |s| - 1;
      var before := set i | 0 <= i < |s[..last]| && s[..last][i].category == category;
      OfCategoryCounts(s[..last], category);
      assert those == before + if s[last].category == category then {last} else {};
      assert last !in before;
    } else {
      assert those == {};
    }
  }

  /** The categories of `s`, in the order they first occur. */
  function CategoryOrder(s: seq<Question>): seq<int> {
    if s == [] then []
    else
      var front, category := CategoryOrder(s[..|s| - 1]), s[|s| - 1].category;
      if category in front then front else front + [category]
  }

  lemma CategoryOrderSnoc(s: seq<Question>, q: Question)
    ensures CategoryOrder(s + [q]) ==
            CategoryOrder(s) + if q.category in CategoryOrder(s) then [] else [q.category]
  {
    assert (s + [q])[..|s|] == s;
  }

  /** Question `i` is of the category `c`, before any question of `d`. */
  ghost predicate FirstBefore(s: seq<Question>, i: nat, c: int, d: int) {
    i < |s| && s[i].category == c && forall j :: 0 <= j < |s| && s[j].category == d ==> i < j
  }

  lemma {:induction false} CategoryListed(s: seq<Question>, c: int)
    ensures c in CategoryOrder(s) <==> exists i :: 0 <= i < |s| && s[i].category == c
  {
    if s != [] {
      CategoryListed(s[..|s| - 1], c);
      assert s == s[..|s| - 1] + [s[|s| - 1]];
    }
  }

  /** The order of the categories is the order of their first questions. */
  lemma {:induction false} CategoriesByFirst(s: seq<Question>, k: nat, l: nat)
    requires k < l < |CategoryOrder(s)|
    ensures exists i: nat :: FirstBefore(s, i, CategoryOrder(s)[k], CategoryOrder(s)[l])
  {
    var front, last := s[..|s| - 1], s[|s| - 1];
    var order, before := CategoryOrder(s), CategoryOrder(front);
    assert s == front + [last];
    CategoryListed(front, order[k]);
    CategoryListed(front, order[l]);
    if l < |before| {
      CategoriesByFirst(front, k, l);
      var i: nat :| FirstBefore(front, i, before[k], before[l]);
      assert FirstBefore(s, i, order[k], order[l]);
    } else {
      assert before[k] in before;
      var i :| 0 <= i < |front| && front[i].category == order[k];
      assert FirstBefore(s, i, order[k], order[l]);
    }
  }

  /** `cats` lists the categories of `s`, each once. */
  ghost predicate Lists(cats: seq<int>, s: seq<Question>) {
    && (forall i, j :: 0 <= i < j < |cats| ==> cats[i] != cats[j])
    && (forall c :: c in cats <==> OfCategory(s, c) != [])
  }

  /** `by_cat`: the buckets of a list of questions. */
  method Group(s: seq<Question>) returns (cats: seq<int>, buckets: Buckets)
    ensures Grouped(cats, buckets, s) && cats == CategoryOrder(s)
  {
    cats, buckets := [], [];
    for k := 0 to |s|
      invariant Grouped(cats, buckets, s[..k]) && cats == CategoryOrder(s[..k])
    {
      assert s[..k + 1] == s[..k] + [s[k]];
      cats, buckets := AddToBucket(cats, buckets, s[..k], s[k]);
    }
    assert s[..|s|] == s;
  }

  ghost predicate Grouped(cats: seq<int>, buckets: Buckets, s: seq<Question>) {
    && Lists(cats, s) && |buckets| == |cats|
    && forall c :: 0 <= c < |cats| ==> buckets[c] == OfCategory(s, cats[c])
  }

  /** `by_cat.setdefault(category, []).append(q)`. */
  method AddToBucket(cats: seq<int>, buckets: Buckets, ghost s: seq<Question>, q: Question)
      returns (cats': seq<int>, buckets': Buckets)
    requires Grouped(cats, buckets, s) && cats == CategoryOrder(s)
    ensures Grouped(cats', buckets', s + [q]) && cats' == CategoryOrder(s + [q])
  {
    CategoryOrderSnoc(s, q);
    var c := Find(cats, q.category);
    if c < |cats| {
      cats', buckets' := cats, buckets[c := buckets[c] + [q]];
      OldBucket(cats, buckets, s, q, c);
    } else {
      cats', buckets' := cats + [q.category], buckets + [[q]];
      NewBucket(cats, buckets, s, q);
    }
  }

  lemma OldBucket(cats: seq<int>, buckets: Buckets, s: seq<Question>, q: Question, c: nat)
    requires Grouped(cats, buckets, s) && c < |cats| && cats[c] == q.category
    ensures Grouped(cats, buckets[c := buckets[c] + [q]], s + [q])
  {
    var after := buckets[c := buckets[c] + [q]];
    forall d | 0 <= d < |cats|
      ensures after[d] == OfCategory(s + [q], cats[d])
    {
      OfCategorySnoc(s, q, cats[d]);
    }
    forall category
      ensures category in cats <==> OfCategory(s + [q], category) != []
    {
      OfCategorySnoc(s, q, category);
    }
  }

  lemma NewBucket(cats: seq<int>, buckets: Buckets, s: seq<Question>, q: Question)
    requires Grouped(cats, buckets, s) && q.category !in cats
    ensures Grouped(cats + [q.category], buckets + [[q]], s + [q])
  {
    var cats', after := cats + [q.category], buckets + [[q]];
    forall d | 0 <= d < |cats'|
      ensures after[d] == OfCategory(s + [q], cats'[d])
    {
      OfCategorySnoc(s, q, cats'[d]);
    }
    forall category
      ensures category in cats' <==> OfCategory(s + [q], category) != []
    {
      OfCategorySnoc(s, q, category);
      assert category in cats' <==> category in cats || category == q.category;
    }
  }

  method Find(cats: seq<int>, category: int) returns (c: nat)
    ensures c <= |cats| && (c < |cats| ==> cats[c] == category)
    ensures c == |cats| ==> category !in cats
  {
    c := 0;
    while c < |cats| && cats[c] != category
      invariant c <= |cats| && category !in cats[..c]
    {
      c := c + 1;
    }
  }

  function Total(buckets: Buckets): nat {
    if buckets == [] then 0 else Total(buckets[..|buckets| - 1]) + |buckets[|buckets| - 1]|
  }

  lemma {:induction false} TotalPop(buckets: Buckets, c: nat)
    requires c < |buckets| && buckets[c] != []
    ensures Total(buckets[c := buckets[c][..|buckets[c]| - 1]]) == Total(buckets) - 1
  {
    var front, popped := buckets[..|buckets| - 1], buckets[c][..|buckets[c]| - 1];
    var after := buckets[c := popped];
    if c == |buckets| - 1 {
      assert after[..|buckets| - 1] == front;
    } else {
      TotalPop(front, c);
      assert after[..|buckets| - 1] == front[c := popped];
    }
  }

  lemma {:induction false} TotalZero(buckets: Buckets)
    ensures Total(buckets) == 0 <==> forall c :: 0 <= c < |buckets| ==> buckets[c] == []
  {
    if buckets != [] {
      TotalZero(buckets[..|buckets| - 1]);
    }
  }

  // ---- the draw ------------------------------------------------------------

  /** The first `k` questions popped off a bucket. */
  function Drawn(bucket: seq<Question>, k: nat): seq<Question>
    requires k <= |bucket|
  {
    seq(k, i requires 0 <= i < k => bucket[|bucket| - 1 - i])
  }

  /** After `i` turns: every bucket has given up its last questions, one per
      visit while they lasted, and they are the picks of its category. */
  ghost predicate Dealt(picked: seq<Question>, left: Buckets, full: Buckets, cats: seq<int>, i: nat) {
    && |left| == |full| == |cats|
    && (forall c :: 0 <= c < |cats| ==> BucketDealt(picked, left[c], full[c], cats[c], Visits(i, |cats|, c)))
    && (forall q :: q in picked ==> q.category in cats)
  }

  ghost predicate BucketDealt(picked: seq<Question>, left: seq<Question>, full: seq<Question>, category: int,
                              visits: nat) {
    var taken := Min(|full|, visits);
    left == full[..|full| - taken] && OfCategory(picked, category) == Drawn(full, taken)
  }

  ghost predicate Distinct(cats: seq<int>) {
    forall i, j :: 0 <= i < j < |cats| ==> cats[i] != cats[j]
  }

  /** A turn that pops a question. */
  lemma TurnPops(picked: seq<Question>, left: Buckets, full: Buckets, cats: seq<int>, i: nat, c: nat)
    requires Dealt(picked, left, full, cats, i) && Distinct(cats)
    requires |cats| > 0 && c == Turn(i, |cats|) && left[c] != []
    requires Homogeneous(full, cats)
    ensures var n := |left[c]| - 1; Dealt(picked + [left[c][n]], left[c := left[c][..n]], full, cats, i + 1)
  {
    var n := |left[c]| - 1;
    var q := left[c][n];
    assert q == full[c][n] && q in full[c];
    forall d | 0 <= d < |cats|
      ensures BucketDealt(picked + [q], left[c := left[c][..n]][d], full[d], cats[d], Visits(i + 1, |cats|, d))
    {
      assert BucketDealt(picked, left[d], full[d], cats[d], Visits(i, |cats|, d));
      if d == c {
        BucketPops(picked, left[c], full[c], cats[c], Visits(i, |cats|, c));
      } else {
        OfCategorySnoc(picked, q, cats[d]);
      }
    }
  }

  lemma BucketPops(picked: seq<Question>, left: seq<Question>, full: seq<Question>, category: int, visits: nat)
    requires BucketDealt(picked, left, full, category, visits) && left != []
    requires left[|left| - 1].category == category
    ensures BucketDealt(picked + [left[|left| - 1]], left[..|left| - 1], full, category, visits + 1)
  {
    OfCategorySnoc(picked, left[|left| - 1], category);
    DrawnNext(full, visits);
  }

  lemma DrawnNext(bucket: seq<Question>, k: nat)
    requires k < |bucket|
    ensures Drawn(bucket, k + 1) == Drawn(bucket, k) + [bucket[|bucket| - 1 - k]]
  {}

  /** A turn on an empty bucket. */
  lemma TurnPasses(picked: seq<Question>, left: Buckets, full: Buckets, cats: seq<int>, i: nat)
    requires Dealt(picked, left, full, cats, i) && |cats| > 0 && left[Turn(i, |cats|)] == []
    ensures Dealt(picked, left, full, cats, i + 1)
  {
    forall d | 0 <= d < |cats|
      ensures BucketDealt(picked, left[d], full[d], cats[d], Visits(i + 1, |cats|, d))
    {
      assert BucketDealt(picked, left[d], full[d], cats[d], Visits(i, |cats|, d));
    }
  }

  ghost predicate Homogeneous(full: Buckets, cats: seq<int>) {
    |full| == |cats| && forall c, q :: 0 <= c < |cats| && q in full[c] ==> q.category == cats[c]
  }

  /** No bucket is ahead by more than one of a bucket that still has questions. */
  ghost predicate Fair(picked: seq<Question>, full: Buckets, cats: seq<int>)
    requires |full| == |cats|
  {
    forall c, d :: 0 <= c < |cats| && 0 <= d < |cats| && |OfCategory(picked, cats[d])| < |full[d]| ==>
      |OfCategory(picked, cats[c])| <= |OfCategory(picked, cats[d])| + 1
  }

  lemma DealtIsFair(picked: seq<Question>, left: Buckets, full: Buckets, cats: seq<int>, i: nat)
    requires Dealt(picked, left, full, cats, i)
    ensures Fair(picked, full, cats)
  {
    var m := |cats|;
    forall c, d | 0 <= c < m && 0 <= d < m && |OfCategory(picked, cats[d])| < |full[d]|
      ensures |OfCategory(picked, cats[c])| <= |OfCategory(picked, cats[d])| + 1
    {
      assert BucketDealt(picked, left[c], full[c], cats[c], Visits(i, m, c));
      assert BucketDealt(picked, left[d], full[d], cats[d], Visits(i, m, d));
      VisitsAre(i, m, c);
      VisitsAre(i, m, d);
    }
  }

  /** How many turns until bucket `hit`. */
  function Wait(at: nat, hit: nat, m: nat): nat
    requires at < m && hit < m
  {
    if at <= hit then hit - at else m - at + hit
  }

  /** Fair after every pick so far. */
  ghost predicate FairThroughout(picked: seq<Question>, full: Buckets, cats: seq<int>)
    requires |full| == |cats|
  {
    forall k :: 0 <= k <= |picked| ==> Fair(picked[..k], full, cats)
  }

  lemma FairOnceMore(before: seq<Question>, q: Question, full: Buckets, cats: seq<int>)
    requires |full| == |cats| && FairThroughout(before, full, cats) && Fair(before + [q], full, cats)
    ensures FairThroughout(before + [q], full, cats)
  {
    var picked := before + [q];
    forall k | 0 <= k <= |picked|
      ensures Fair(picked[..k], full, cats)
    {
      if k <= |before| {
        assert picked[..k] == before[..k];
      } else {
        assert picked[..k] == picked;
      }
    }
  }

  /** How far the rotation is from the next question, one included; zero when
      no question is left. */
  ghost function Distance(buckets: Buckets, i: nat): nat {
    if AllEmpty(buckets) then 0 else 1 + Wait(Turn(i, |buckets|), NextFull(buckets, Turn(i, |buckets|)), |buckets|)
  }

  lemma PopKeeps(picked: seq<Question>, left: Buckets, full: Buckets, cats: seq<int>, i: nat, c: nat)
    requires Homogeneous(full, cats) && Distinct(cats)
    requires Dealt(picked, left, full, cats, i) && FairThroughout(picked, full, cats)
    requires |cats| > 0 && c == Turn(i, |cats|) && left[c] != []
    ensures var n := |left[c]| - 1; var q, after := left[c][n], left[c := left[c][..n]];
            && Dealt(picked + [q], after, full, cats, i + 1) && FairThroughout(picked + [q], full, cats)
            && Total(after) == Total(left) - 1
  {
    var n := |left[c]| - 1;
    TurnPops(picked, left, full, cats, i, c);
    TotalPop(left, c);
    DealtIsFair(picked + [left[c][n]], left[c := left[c][..n]], full, cats, i + 1);
    FairOnceMore(picked, left[c][n], full, cats);
  }

  /** The round robin over shuffled buckets. */
  method RoundRobin(full: Buckets, cats: seq<int>, perConv: int)
      returns (picked: seq<Question>, ghost left: Buckets, ghost turns: nat)
    requires Homogeneous(full, cats) && Distinct(cats)
    ensures Dealt(picked, left, full, cats, turns)
    ensures |picked| == Min(Wanted(perConv), Total(full))
    ensures FairThroughout(picked, full, cats)
  {
    picked := [];
    var byCat := full;
    var i := 0;
    assert picked[..0] == [];
    DealtIsFair(picked, byCat, full, cats, 0);
    while |picked| < perConv && !AllEmpty(byCat)
      invariant Dealt(picked, byCat, full, cats, i) && FairThroughout(picked, full, cats)
      invariant |picked| + Total(byCat) == Total(full) && |picked| <= Wanted(perConv)
      decreases Total(byCat), Distance(byCat, i)
    {
      var c := TurnOf(i, |cats|);
      if byCat[c] != [] {
        var n := |byCat[c]| - 1;
        PopKeeps(picked, byCat, full, cats, i, c);
        picked, byCat := picked + [byCat[c][n]], byCat[c := byCat[c][..n]];
      } else {
        TurnPasses(picked, byCat, full, cats, i);
        PassingComesCloser(byCat, i);
      }
      i := i + 1;
    }
    if AllEmpty(byCat) {
      TotalZero(byCat);
    }
    left, turns := byCat, i;
  }

  predicate AllEmpty(buckets: Buckets) {
    forall c :: 0 <= c < |buckets| ==> buckets[c] == []
  }

  /** The bucket the rotation reaches first from `at` that has a question left. */
  ghost function NextFull(buckets: Buckets, at: nat): (hit: nat)
    requires at < |buckets| && !AllEmpty(buckets)
    ensures hit < |buckets| && buckets[hit] != []
    ensures forall c :: 0 <= c < |buckets| && buckets[c] != [] ==> Wait(at, hit, |buckets|) <= Wait(at, c, |buckets|)
  {
    NearestExists(buckets, at, |buckets|);
    var hit: nat :| Nearest(buckets, at, hit, |buckets|);
    hit
  }

  ghost predicate Nearest(buckets: Buckets, at: nat, hit: nat, n: nat)
    requires at < |buckets| && n <= |buckets|
  {
    && hit < |buckets| && buckets[hit] != []
    && forall c :: 0 <= c < n && buckets[c] != [] ==> Wait(at, hit, |buckets|) <= Wait(at, c, |buckets|)
  }

  lemma {:induction false} NearestExists(buckets: Buckets, at: nat, n: nat)
    requires at < |buckets| && n <= |buckets| && !AllEmpty(buckets)
    ensures exists hit: nat :: Nearest(buckets, at, hit, n)
  {
    if n == 0 {
      var c :| 0 <= c < |buckets| && buckets[c] != [];
      assert Nearest(buckets, at, c, 0);
    } else {
      NearestExists(buckets, at, n - 1);
      var hit: nat :| Nearest(buckets, at, hit, n - 1);
      if buckets[n - 1] != [] && Wait(at, n - 1, |buckets|) < Wait(at, hit, |buckets|) {
        assert Nearest(buckets, at, n - 1, n);
      } else {
        assert Nearest(buckets, at, hit, n);
      }
    }
  }

  lemma PassingComesCloser(buckets: Buckets, i: nat)
    requires !AllEmpty(buckets) && buckets[Turn(i, |buckets|)] == []
    ensures Distance(buckets, i + 1) < Distance(buckets, i)
  {
    var m := |buckets|;
    var at, next := Turn(i, m), Turn(i + 1, m);
    var hit := NextFull(buckets, at);
    assert Wait(next, hit, m) == Wait(at, hit, m) - 1;
    assert Wait(next, NextFull(buckets, next), m) <= Wait(next, hit, m);
  }

  // ---- sample_qa -----------------------------------------------------------

  /** A shuffle may reorder a list and nothing else. */
  ghost predicate Reorders(shuffle: (nat, seq<Question>) -> seq<Question>) {
    forall draw, s :: multiset(shuffle(draw, s)) == multiset(s)
  }

  /** What a sample of `qa` is: as many questions with evidence as asked for and
      available, none more often than it is there, and fair at every prefix. */
  ghost predicate IsSample(picked: seq<Question>, qa: seq<Question>, perConv: int) {
    var have := WithEvidence(qa);
    && |picked| == Min(Wanted(perConv), |have|)
    && multiset(picked) <= multiset(have)
    && forall k, c, d :: 0 <= k <= |picked| && |OfCategory(picked[..k], d)| < |OfCategory(have, d)| ==>
         |OfCategory(picked[..k], c)| <= |OfCategory(picked[..k], d)| + 1
  }

  /** The number of questions of each category follows its round-robin turns. */
  ghost predicate FollowsTurns(picked: seq<Question>, qa: seq<Question>, cats: seq<int>, turns: nat) {
    forall c :: 0 <= c < |cats| ==>
      |OfCategory(picked, cats[c])| == Min(|OfCategory(WithEvidence(qa), cats[c])|, Visits(turns, |cats|, c))
  }

  method SampleQa(qa: seq<Question>, perConv: int, shuffle: (nat, seq<Question>) -> seq<Question>)
      returns (picked: seq<Question>)
    requires Reorders(shuffle)
    ensures IsSample(picked, qa, perConv)
    ensures exists turns :: FollowsTurns(picked, qa, CategoryOrder(WithEvidence(qa)), turns)
  {
    var have := WithEvidence(qa);
    var cats, byCat := Group(have);
    var shuffled: Buckets := [];
    for c := 0 to |cats|
      invariant |shuffled| == c
      invariant forall d :: 0 <= d < c ==> multiset(shuffled[d]) == multiset(byCat[d])
    {
      shuffled := shuffled + [shuffle(c, byCat[c])];
    }
    ghost var left, turns;
    ShuffledBuckets(have, cats, byCat, shuffled);
    picked, left, turns := RoundRobin(shuffled, cats, perConv);
    DealtIsSample(picked, left, shuffled, qa, cats, perConv, turns);
  }

  lemma SameSize(s: seq<Question>, t: seq<Question>)
    requires multiset(s) == multiset(t)
    ensures |s| == |t|
  {
    assert |multiset(s)| == |s| && |multiset(t)| == |t|;
  }

  /** A category's list has every question of the category as often as the whole. */
  lemma {:induction false} CategoryCount(s: seq<Question>, category: int, q: Question)
    ensures multiset(OfCategory(s, category))[q] == if q.category == category then multiset(s)[q] else 0
  {
    if s != [] {
      var front, last := s[..|s| - 1], s[|s| - 1];
      CategoryCount(front, category, q);
      CountSnoc(front, last, q);
      CountSnoc(OfCategory(front, category), last, q);
      assert s == front + [last];
    }
  }

  lemma CountSnoc(s: seq<Question>, last: Question, q: Question)
    ensures multiset(s + [last])[q] == multiset(s)[q] + if q == last then 1 else 0
  {}

  /** The buckets hold all the questions. */
  lemma {:induction false} BucketsTotal(have: seq<Question>, cats: seq<int>, buckets: Buckets)
    requires Lists(cats, have) && |buckets| == |cats|
    requires forall c :: 0 <= c < |cats| ==> |buckets[c]| == |OfCategory(have, cats[c])|
    ensures Total(buckets) == |have|
  {
    TotalIs(have, cats, buckets);
    PartsTotal(have, cats);
  }

  /** The number of questions of `s` in the categories `cats`. */
  function Parts(s: seq<Question>, cats: seq<int>): nat {
    if cats == [] then 0 else Parts(s, cats[..|cats| - 1]) + |OfCategory(s, cats[|cats| - 1])|
  }

  lemma {:induction false} TotalIs(have: seq<Question>, cats: seq<int>, buckets: Buckets)
    requires |buckets| == |cats|
    requires forall c :: 0 <= c < |cats| ==> |buckets[c]| == |OfCategory(have, cats[c])|
    ensures Total(buckets) == Parts(have, cats)
  {
    if cats != [] {
      TotalIs(have, cats[..|cats| - 1], buckets[..|cats| - 1]);
    }
  }

  lemma {:induction false} PartsSnoc(s: seq<Question>, q: Question, cats: seq<int>)
    requires Distinct(cats)
    ensures Parts(s + [q], cats) == Parts(s, cats) + if q.category in cats then 1 else 0
  {
    if cats != [] {
      PartsSnoc(s, q, cats[..|cats| - 1]);
      OfCategorySnoc(s, q, cats[|cats| - 1]);
      assert cats == cats[..|cats| - 1] + [cats[|cats| - 1]];
    }
  }

  lemma {:induction false} PartsEmpty(cats: seq<int>)
    ensures Parts([], cats) == 0
  {
    if cats != [] {
      PartsEmpty(cats[..|cats| - 1]);
    }
  }

  lemma {:induction false} PartsOf(s: seq<Question>, cats: seq<int>)
    requires Distinct(cats) && forall q :: q in s ==> q.category in cats
    ensures Parts(s, cats) == |s|
  {
    if s == [] {
      PartsEmpty(cats);
    } else {
      var front, q := s[..|s| - 1], s[|s| - 1];
      assert s == front + [q] && q in s;
      PartsOf(front, cats);
      PartsSnoc(front, q, cats);
    }
  }

  lemma PartsTotal(have: seq<Question>, cats: seq<int>)
    requires Lists(cats, have)
    ensures Parts(have, cats) == |have|
  {
    forall q | q in have
      ensures q.category in cats
    {
      CategoryCount(have, q.category, q);
      assert q in multiset(have);
      assert q in multiset(OfCategory(have, q.category));
    }
    PartsOf(have, cats);
  }

  lemma ShuffledBuckets(have: seq<Question>, cats: seq<int>, byCat: Buckets, shuffled: Buckets)
    requires Lists(cats, have) && |byCat| == |cats| == |shuffled|
    requires forall c :: 0 <= c < |cats| ==> byCat[c] == OfCategory(have, cats[c])
    requires forall c :: 0 <= c < |cats| ==> multiset(shuffled[c]) == multiset(byCat[c])
    ensures Homogeneous(shuffled, cats) && Total(shuffled) == |have|
    ensures forall c :: 0 <= c < |cats| ==> |shuffled[c]| == |OfCategory(have, cats[c])|
  {
    forall c | 0 <= c < |cats|
      ensures |shuffled[c]| == |OfCategory(have, cats[c])|
      ensures forall q :: q in shuffled[c] ==> q.category == cats[c]
    {
      SameSize(shuffled[c], byCat[c]);
      forall q | q in shuffled[c]
        ensures q.category == cats[c]
      {
        CategoryCount(have, cats[c], q);
        assert q in multiset(shuffled[c]);
      }
    }
    BucketsTotal(have, cats, shuffled);
  }

  lemma {:induction false} DrawnMembers(bucket: seq<Question>, k: nat)
    requires k <= |bucket|
    ensures multiset(Drawn(bucket, k)) <= multiset(bucket)
  {
    assert multiset(Drawn(bucket, k)) == multiset(bucket[|bucket| - k..]) by { DrawnSuffix(bucket, k); }
    assert bucket == bucket[..|bucket| - k] + bucket[|bucket| - k..];
  }

  lemma {:induction false} DrawnSuffix(bucket: seq<Question>, k: nat)
    requires k <= |bucket|
    ensures multiset(Drawn(bucket, k)) == multiset(bucket[|bucket| - k..])
  {
    if k > 0 {
      DrawnSuffix(bucket, k - 1);
      DrawnNext(bucket, k - 1);
      assert bucket[|bucket| - k..] == [bucket[|bucket| - k]] + bucket[|bucket| - (k - 1)..];
    }
  }

  lemma DealtIsSample(picked: seq<Question>, left: Buckets, shuffled: Buckets, qa: seq<Question>, cats: seq<int>,
                      perConv: int, turns: nat)
    requires var have := WithEvidence(qa);
             && Lists(cats, have) && Dealt(picked, left, shuffled, cats, turns)
             && (forall c :: 0 <= c < |cats| ==> |shuffled[c]| == |OfCategory(have, cats[c])|)
             && (forall c :: 0 <= c < |cats| ==> multiset(shuffled[c]) == multiset(OfCategory(have, cats[c])))
             && |picked| == Min(Wanted(perConv), |have|)
             && FairThroughout(picked, shuffled, cats)
    ensures IsSample(picked, qa, perConv) && FollowsTurns(picked, qa, cats, turns)
  {
    var have := WithEvidence(qa);
    DrawnFrom(picked, left, shuffled, have, cats, turns);
    forall c | 0 <= c < |cats|
      ensures |OfCategory(picked, cats[c])| == Min(|OfCategory(have, cats[c])|, Visits(turns, |cats|, c))
    {
      assert BucketDealt(picked, left[c], shuffled[c], cats[c], Visits(turns, |cats|, c));
    }
    forall k, c, d | 0 <= k <= |picked| && |OfCategory(picked[..k], d)| < |OfCategory(have, d)|
      ensures |OfCategory(picked[..k], c)| <= |OfCategory(picked[..k], d)| + 1
    {
      var j :| 0 <= j < |cats| && cats[j] == d;
      if c in cats {
        var i :| 0 <= i < |cats| && cats[i] == c;
        assert Fair(picked[..k], shuffled, cats);
      } else {
        NoneOf(picked[..k], cats, c);
      }
    }
  }

  lemma {:induction false} NoneOf(s: seq<Question>, cats: seq<int>, category: int)
    requires category !in cats && forall q :: q in s ==> q.category in cats
    ensures OfCategory(s, category) == []
  {
    if s != [] {
      assert s[|s| - 1] in s;
      NoneOf(s[..|s| - 1], cats, category);
    }
  }

  lemma DrawnFrom(picked: seq<Question>, left: Buckets, shuffled: Buckets, have: seq<Question>, cats: seq<int>,
                  turns: nat)
    requires Dealt(picked, left, shuffled, cats, turns)
    requires forall c :: 0 <= c < |cats| ==> multiset(shuffled[c]) == multiset(OfCategory(have, cats[c]))
    ensures multiset(picked) <= multiset(have)
  {
    forall q | q in multiset(picked)
      ensures multiset(picked)[q] <= multiset(have)[q]
    {
      assert q in picked;
      var c :| 0 <= c < |cats| && cats[c] == q.category;
      CategoryCount(picked, q.category, q);
      CategoryCount(have, q.category, q);
      assert BucketDealt(picked, left[c], shuffled[c], cats[c], Visits(turns, |cats|, c));
      DrawnMembers(shuffled[c], Min(|shuffled[c]|, Visits(turns, |cats|, c)));
    }
  }
}
