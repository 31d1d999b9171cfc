/** The fraud layer of the first console: case nodes joined by provenance and by
    an anchor per case, and their groups. */
module FraudGraphs {
  import opened Wrappers
  import opened Components

  type Caso = string

  /** A result row: `caso` is absent when the row has no usable case, `id` when it
      has no id; `provenance` is what the database answers for the id. */
  datatype Row = Row(id: Option<Node>, caso: Option<Caso>, lsn: int, provenance: seq<Node>)

  datatype CaseNode = CaseNode(id: Node, caso: Caso, lsn: int, provenance: seq<Node>)

  function Kept(rows: seq<Row>): seq<CaseNode> {
    if rows == [] then []
    else
      var front, r := Kept(rows[..|rows| - 1]), rows[|rows| - 1];
      if r.id.Some? && r.caso.Some? then front + [CaseNode(r.id.value, r.caso.value, r.lsn, r.provenance)] else front
  }

  function IdsOf(fraud: seq<CaseNode>): set<Node> {
    set n | n in fraud :: n.id
  }

  ghost function Provenance(fraud: seq<CaseNode>, ids: set<Node>): Links {
    set n, p | n in fraud && p in n.provenance && p in ids :: (n.id, p)
  }

  /** Every pair of nodes of the same case. */
  ghost function SameCase(fraud: seq<CaseNode>): Links {
    set m, n | m in fraud && n in fraud && m.caso == n.caso :: (m.id, n.id)
  }

  /** What makes two nodes related. */
  ghost function Relation(fraud: seq<CaseNode>): Links {
    Provenance(fraud, IdsOf(fraud)) + SameCase(fraud)
  }

  /** Each node and the anchor of its case. */
  ghost function Anchored(fraud: seq<CaseNode>, anchor: map<Caso, Node>): Links {
    set n | n in fraud && n.caso in anchor :: (n.id, anchor[n.caso])
  }

  /** Node `i` is the first of its case by position, and by order on a tie. */
  ghost predicate Anchors(fraud: seq<CaseNode>, caso: Caso, id: Node, i: nat) {
    && i < |fraud| && fraud[i].caso == caso && fraud[i].id == id
    && forall j :: 0 <= j < |fraud| && fraud[j].caso == caso ==>
         fraud[i].lsn < fraud[j].lsn || (fraud[i].lsn == fraud[j].lsn && i <= j)
  }

  /** The anchor of a case is the id of its first node by position. */
  ghost predicate IsAnchor(fraud: seq<CaseNode>, caso: Caso, id: Node) {
    exists i: nat :: Anchors(fraud, caso, id, i)
  }

  ghost predicate AreAnchors(fraud: seq<CaseNode>, anchor: map<Caso, Node>) {
    && (forall n :: n in fraud ==> n.caso in anchor)
    && (forall c :: c in anchor ==> IsAnchor(fraud, c, anchor[c]))
  }

  /** An anchor per case connects what linking all the pairs of the case would,
      so the choice of anchor never shows in the groups. */
  lemma AnchorsConnectLikePairs(fraud: seq<CaseNode>, anchor: map<Caso, Node>, others: Links, a: Node, b: Node)
    requires AreAnchors(fraud, anchor)
    ensures Connected(others + Anchored(fraud, anchor), a, b) <==> Connected(others + SameCase(fraud), a, b)
  {
    var stars, pairs := others + Anchored(fraud, anchor), others + SameCase(fraud);
    forall x: Node, y: Node | (x, y) in stars
      ensures Connected(pairs, x, y)
    {
      if (x, y) in Anchored(fraud, anchor) {
        var n :| n in fraud && n.caso in anchor && x == n.id && y == anchor[n.caso];
        assert IsAnchor(fraud, n.caso, y);
        var i: nat :| Anchors(fraud, n.caso, y, i);
        assert fraud[i] in fraud && (n.id, fraud[i].id) in SameCase(fraud);
      }
      AdjacentConnects(pairs, x, y);
    }
    forall x: Node, y: Node | (x, y) in pairs
      ensures Connected(stars, x, y)
    {
      if (x, y) in others {
        AdjacentConnects(stars, x, y);
      } else {
        var m, n :| m in fraud && n in fraud && m.caso == n.caso && x == m.id && y == n.id;
        var hub := anchor[m.caso];
        assert (m.id, hub) in Anchored(fraud, anchor) && (n.id, hub) in Anchored(fraud, anchor);
        AdjacentConnects(stars, x, hub);
        AdjacentConnects(stars, hub, y);
        ConnectedTransitive(stars, x, hub, y);
      }
    }
    SameComponents(stars, pairs, a, b);
  }

  // ---- the same, said of the rows ------------------------------------------

  /** A row with an id and a case. */
  predicate InCase(r: Row, id: Node, caso: Caso) {
    r.id == Some(id) && r.caso == Some(caso)
  }

  ghost function RowIds(rows: seq<Row>): set<Node> {
    set r | r in rows && r.id.Some? && r.caso.Some? :: r.id.value
  }

  /** The database answers `b` for the row `a`, and `b` is the id of a row. */
  ghost predicate RowProvenance(rows: seq<Row>, a: Node, b: Node) {
    b in RowIds(rows) && exists r :: r in rows && r.id == Some(a) && r.caso.Some? && b in r.provenance
  }

  ghost predicate RowSameCase(rows: seq<Row>, a: Node, b: Node) {
    exists r, s, caso :: r in rows && s in rows && InCase(r, a, caso) && InCase(s, b, caso)
  }

  /** What joins two ids, on the rows as they come. */
  ghost function RowLinks(rows: seq<Row>): Links {
    set a, b | a in RowIds(rows) && b in RowIds(rows)
               && (RowProvenance(rows, a, b) || RowSameCase(rows, a, b)) :: (a, b)
  }

  ghost predicate RowAnchors(rows: seq<Row>, caso: Caso, id: Node, i: nat) {
    && i < |rows| && InCase(rows[i], id, caso)
    && forall j :: 0 <= j < |rows| && rows[j].id.Some? && rows[j].caso == Some(caso) ==>
         rows[i].lsn < rows[j].lsn || (rows[i].lsn == rows[j].lsn && i <= j)
  }

  /** `b` is the anchor of a case of `a`: of its first row by position, and by order on a tie. */
  ghost predicate RowAnchored(rows: seq<Row>, a: Node, b: Node) {
    exists r, caso, i: nat :: r in rows && InCase(r, a, caso) && RowAnchors(rows, caso, b, i)
  }

  /** The edges are provenance and anchors, each unordered pair at most once. */
  ghost predicate RowEdges(rows: seq<Row>, edges: seq<(Node, Node)>) {
    && NoRepeats(edges) && NoLoops(edges)
    && forall a: Node, b: Node :: a != b ==>
         (Drawn(edges, a, b) <==>
          || RowProvenance(rows, a, b) || RowProvenance(rows, b, a)
          || RowAnchored(rows, a, b) || RowAnchored(rows, b, a))
  }

  /** The places of the rows that become nodes, in order. */
  ghost function Places(rows: seq<Row>): seq<nat> {
    if rows == [] then []
    else
      var last := |rows| - 1;
      Places(rows[..last]) + if rows[last].id.Some? && rows[last].caso.Some? then [last] else []
  }

  predicate Becomes(r: Row, n: CaseNode) {
    InCase(r, n.id, n.caso) && r.lsn == n.lsn && r.provenance == n.provenance
  }

  ghost predicate PlacesOf(rows: seq<Row>, places: seq<nat>, fraud: seq<CaseNode>) {
    && |places| == |fraud|
    && (forall k :: 0 <= k < |places| ==> places[k] < |rows| && Becomes(rows[places[k]], fraud[k]))
    && (forall k, l :: 0 <= k < l < |places| ==> places[k] < places[l])
    && (forall i: nat :: i < |rows| && rows[i].id.Some? && rows[i].caso.Some? ==> i in places)
  }

  lemma {:induction false} KeptPlaces(rows: seq<Row>)
    ensures PlacesOf(rows, Places(rows), Kept(rows))
  {
    if rows != [] {
      var front, r := rows[..|rows| - 1], rows[|rows| - 1];
      KeptPlaces(front);
      assert rows == front + [r];
      PlacesGrow(front, r, Places(front), Kept(front));
    }
  }

  lemma PlacesGrow(front: seq<Row>, r: Row, places: seq<nat>, fraud: seq<CaseNode>)
    requires PlacesOf(front, places, fraud)
    ensures if r.id.Some? && r.caso.Some? then
              PlacesOf(front + [r], places + [|front|],
                       fraud + [CaseNode(r.id.value, r.caso.value, r.lsn, r.provenance)])
            else PlacesOf(front + [r], places, fraud)
  {
    var rows := front + [r];
    assert forall i :: 0 <= i < |front| ==> rows[i] == front[i];
    assert (places + [|front|])[|places|] == |front|;
    assert forall i :: i in places ==> i in places + [|front|];
  }

  lemma RowOfNode(rows: seq<Row>, n: CaseNode)
    ensures n in Kept(rows) <==> exists r :: r in rows && Becomes(r, n)
  {
    KeptPlaces(rows);
    var places := Places(rows);
    if n in Kept(rows) {
      var k :| 0 <= k < |Kept(rows)| && Kept(rows)[k] == n;
      assert rows[places[k]] in rows;
    }
    if r :| r in rows && Becomes(r, n) {
      var i: nat :| i < |rows| && rows[i] == r;
      var k :| 0 <= k < |places| && places[k] == i;
      assert Kept(rows)[k] == n;
    }
  }

  lemma KeptIds(rows: seq<Row>)
    ensures IdsOf(Kept(rows)) == RowIds(rows)
  {
    forall r | r in rows && r.id.Some? && r.caso.Some?
      ensures r.id.value in IdsOf(Kept(rows))
    {
      RowOfNode(rows, CaseNode(r.id.value, r.caso.value, r.lsn, r.provenance));
    }
    forall n | n in Kept(rows)
      ensures n.id in RowIds(rows)
    {
      RowOfNode(rows, n);
    }
  }

  lemma ProvenanceOfRows(rows: seq<Row>, a: Node, b: Node)
    ensures (a, b) in Provenance(Kept(rows), IdsOf(Kept(rows))) <==> RowProvenance(rows, a, b)
  {
    KeptIds(rows);
    if (a, b) in Provenance(Kept(rows), IdsOf(Kept(rows))) {
      var n :| n in Kept(rows) && n.id == a && b in n.provenance;
      RowOfNode(rows, n);
    }
    if RowProvenance(rows, a, b) {
      var r :| r in rows && r.id == Some(a) && r.caso.Some? && b in r.provenance;
      RowOfNode(rows, CaseNode(a, r.caso.value, r.lsn, r.provenance));
    }
  }

  lemma CasesOfRows(rows: seq<Row>, a: Node, b: Node)
    ensures (a, b) in SameCase(Kept(rows)) <==> RowSameCase(rows, a, b)
  {
    if (a, b) in SameCase(Kept(rows)) {
      var m, n :| m in Kept(rows) && n in Kept(rows) && m.caso == n.caso && m.id == a && n.id == b;
      RowOfNode(rows, m);
      RowOfNode(rows, n);
      var r :| r in rows && Becomes(r, m);
      var s :| s in rows && Becomes(s, n);
      assert InCase(r, a, m.caso) && InCase(s, b, m.caso);
    }
    if RowSameCase(rows, a, b) {
      var r, s, caso :| r in rows && s in rows && InCase(r, a, caso) && InCase(s, b, caso);
      var m, n := CaseNode(a, caso, r.lsn, r.provenance), CaseNode(b, caso, s.lsn, s.provenance);
      assert Becomes(r, m) && Becomes(s, n);
      RowOfNode(rows, m);
      RowOfNode(rows, n);
    }
  }

  lemma LinksOfRows(rows: seq<Row>)
    ensures Relation(Kept(rows)) == RowLinks(rows)
  {
    KeptIds(rows);
    forall a: Node, b: Node
      ensures (a, b) in Relation(Kept(rows)) <==> (a, b) in RowLinks(rows)
    {
      ProvenanceOfRows(rows, a, b);
      CasesOfRows(rows, a, b);
    }
  }

  /** The anchor of a case, by nodes and by rows. */
  lemma AnchorOfRows(rows: seq<Row>, caso: Caso, id: Node)
    ensures IsAnchor(Kept(rows), caso, id) <==> exists i: nat :: RowAnchors(rows, caso, id, i)
  {
    KeptPlaces(rows);
    var places, fraud := Places(rows), Kept(rows);
    if IsAnchor(fraud, caso, id) {
      var k: nat :| Anchors(fraud, caso, id, k);
      AnchorAtRow(rows, places, fraud, caso, id, k);
    }
    if i: nat :| RowAnchors(rows, caso, id, i) {
      var k :| 0 <= k < |places| && places[k] == i;
      AnchorAtNode(rows, places, fraud, caso, id, k);
    }
  }

  lemma AnchorAtRow(rows: seq<Row>, places: seq<nat>, fraud: seq<CaseNode>, caso: Caso, id: Node, k: nat)
    requires PlacesOf(rows, places, fraud) && Anchors(fraud, caso, id, k)
    ensures RowAnchors(rows, caso, id, places[k])
  {
    forall j: nat | j < |rows| && rows[j].id.Some? && rows[j].caso == Some(caso)
      ensures rows[places[k]].lsn < rows[j].lsn || (rows[places[k]].lsn == rows[j].lsn && places[k] <= j)
    {
      var l :| 0 <= l < |places| && places[l] == j;
      assert Becomes(rows[j], fraud[l]);
    }
  }

  lemma AnchorAtNode(rows: seq<Row>, places: seq<nat>, fraud: seq<CaseNode>, caso: Caso, id: Node, k: nat)
    requires PlacesOf(rows, places, fraud) && k < |places| && RowAnchors(rows, caso, id, places[k])
    ensures Anchors(fraud, caso, id, k)
  {
    forall l | 0 <= l < |fraud| && fraud[l].caso == caso
      ensures fraud[k].lsn < fraud[l].lsn || (fraud[k].lsn == fraud[l].lsn && k <= l)
    {
      assert Becomes(rows[places[l]], fraud[l]) && Becomes(rows[places[k]], fraud[k]);
    }
  }

  /** A case has one anchor. */
  lemma OneAnchor(fraud: seq<CaseNode>, caso: Caso, a: Node, b: Node)
    requires IsAnchor(fraud, caso, a) && IsAnchor(fraud, caso, b)
    ensures a == b
  {
    var i: nat :| Anchors(fraud, caso, a, i);
    var j: nat :| Anchors(fraud, caso, b, j);
  }

  lemma AnchoredOfRows(rows: seq<Row>, anchor: map<Caso, Node>, a: Node, b: Node)
    requires AreAnchors(Kept(rows), anchor)
    ensures (a, b) in Anchored(Kept(rows), anchor) <==> RowAnchored(rows, a, b)
  {
    if (a, b) in Anchored(Kept(rows), anchor) {
      var n :| n in Kept(rows) && n.caso in anchor && a == n.id && b == anchor[n.caso];
      RowOfNode(rows, n);
      AnchorOfRows(rows, n.caso, b);
      assert IsAnchor(Kept(rows), n.caso, b);
      var r :| r in rows && Becomes(r, n);
      var i: nat :| RowAnchors(rows, n.caso, b, i);
      assert InCase(r, a, n.caso);
    }
    if RowAnchored(rows, a, b) {
      var r, caso, i: nat :| r in rows && InCase(r, a, caso) && RowAnchors(rows, caso, b, i);
      var n := CaseNode(a, caso, r.lsn, r.provenance);
      assert Becomes(r, n);
      RowOfNode(rows, n);
      AnchorOfRows(rows, caso, b);
      OneAnchor(Kept(rows), caso, b, anchor[caso]);
    }
  }

  lemma EdgesOfRows(rows: seq<Row>, anchor: map<Caso, Node>, edges: seq<(Node, Node)>)
    requires AreAnchors(Kept(rows), anchor) && NoRepeats(edges)
    requires Draws(edges, Provenance(Kept(rows), IdsOf(Kept(rows))) + Anchored(Kept(rows), anchor))
    ensures RowEdges(rows, edges)
  {
    forall a: Node, b: Node | a != b
      ensures Drawn(edges, a, b) <==>
              || RowProvenance(rows, a, b) || RowProvenance(rows, b, a)
              || RowAnchored(rows, a, b) || RowAnchored(rows, b, a)
    {
      ProvenanceOfRows(rows, a, b);
      ProvenanceOfRows(rows, b, a);
      AnchoredOfRows(rows, anchor, a, b);
      AnchoredOfRows(rows, anchor, b, a);
    }
  }

  // ---- building the graph --------------------------------------------------

  /** The adjacency, the edge list and the pairs already linked. */
  class FraudBuilder {
    const ids: set<Node>
    var adj: Adjacency
    var edges: seq<(Node, Node)>
    var seen: Links
    ghost var asked: Links

    ghost predicate Valid()
      reads this
    {
      && IsAdjacency(adj, ids, seen) && Mirrors(seen, asked)
      && (forall a, b :: (a, b) in seen <==> (a, b) in edges || (b, a) in edges)
      && NoRepeats(edges) && NoLoops(edges)
    }

    constructor (ids: set<Node>)
      ensures Valid() && this.ids == ids && asked == {}
    {
      this.ids := ids;
      adj, edges := map id | id in ids :: {}, [];
      seen, asked := {}, {};
    }

    /** `_link`: at most one edge per unordered pair of different nodes. */
    method Link(a: Node, b: Node)
      requires Valid() && a in ids && b in ids
      modifies this
      ensures Valid() && asked == old(asked) + {(a, b)}
      ensures edges == if a == b || (a, b) in old(seen) then old(edges) else old(edges) + [(a, b)]
    {
      MirrorsGrows(seen, asked, a, b);
      asked := asked + {(a, b)};
      if a == b || (a, b) in seen {
        return;
      }
      NoRepeatsGrows(edges, a, b);
      AdjacencyGrows(adj, ids, seen, a, b);
      ReverseIsFree(adj[a := adj[a] + {b}][b := adj[b] + {a}], ids, seen + {(a, b)}, a, b);
      assert seen + {(a, b)} + {(b, a)} == seen + {(a, b), (b, a)};
      edges := edges + [(a, b)];
      adj := adj[a := adj[a] + {b}];
      adj := adj[b := adj[b] + {a}];
      seen := seen + {(a, b), (b, a)};
    }

    method LinkEach(a: Node, targets: seq<Node>)
      requires Valid() && a in ids
      modifies this
      ensures Valid() && asked == old(asked) + Fan(a, targets, ids)
    {
      for i := 0 to |targets|
        invariant Valid() && asked == old(asked) + Fan(a, targets[..i], ids)
      {
        assert targets[..i + 1] == targets[..i] + [targets[i]];
        if targets[i] in ids {
          Link(a, targets[i]);
        }
      }
      assert targets[..|targets|] == targets;
    }
  }

  /** No unordered pair is listed twice. */
  ghost predicate NoRepeats(edges: seq<(Node, Node)>) {
    forall i, j :: 0 <= i < j < |edges| ==> edges[i] != edges[j] && edges[i] != (edges[j].1, edges[j].0)
  }

  lemma NoRepeatsGrows(edges: seq<(Node, Node)>, a: Node, b: Node)
    requires NoRepeats(edges) && (a, b) !in edges && (b, a) !in edges
    ensures NoRepeats(edges + [(a, b)])
  {}

  method Keep(rows: seq<Row>) returns (fraud: seq<CaseNode>)
    ensures fraud == Kept(rows)
  {
    fraud := [];
    for i := 0 to |rows|
      invariant fraud == Kept(rows[..i])
    {
      assert rows[..i + 1][..i] == rows[..i];
      if rows[i].id.Some? && rows[i].caso.Some? {
        fraud := fraud + [CaseNode(rows[i].id.value, rows[i].caso.value, rows[i].lsn, rows[i].provenance)];
      }
    }
    assert rows[..|rows|] == rows;
  }

  method LinkProvenance(g: FraudBuilder, fraud: seq<CaseNode>)
    requires g.Valid() && g.ids == IdsOf(fraud)
    modifies g
    ensures g.Valid() && g.asked == old(g.asked) + Provenance(fraud, g.ids)
  {
    for i := 0 to |fraud|
      invariant g.Valid() && g.asked == old(g.asked) + Provenance(fraud[..i], g.ids)
    {
      assert fraud[i] in fraud;
      ProvenanceGrows(fraud[..i], fraud[i], g.ids);
      assert fraud[..i + 1] == fraud[..i] + [fraud[i]];
      g.LinkEach(fraud[i].id, fraud[i].provenance);
    }
    assert fraud[..|fraud|] == fraud;
  }

  lemma ProvenanceGrows(fraud: seq<CaseNode>, n: CaseNode, ids: set<Node>)
    ensures Provenance(fraud + [n], ids) == Provenance(fraud, ids) + Fan(n.id, n.provenance, ids)
  {
    assert forall m :: m in fraud + [n] <==> m in fraud || m == n;
  }

  /** `s` is `fraud` by position, nodes of one position in their order; `pos` says
      where each comes from. */
  ghost predicate ByLsn(s: seq<CaseNode>, fraud: seq<CaseNode>, pos: seq<nat>) {
    && |pos| == |s| == |fraud|
    && (forall k :: 0 <= k < |s| ==> pos[k] < |fraud| && s[k] == fraud[pos[k]])
    && (forall k: nat, l: nat :: k < l < |s| ==> GoesFirst(s, pos, k, l))
    && (forall i: nat :: i < |fraud| ==> i in pos)
  }

  /** `sorted(fraud, key=lsn)`: each node goes after those of the same position. */
  method SortByLsn(fraud: seq<CaseNode>) returns (s: seq<CaseNode>, ghost pos: seq<nat>)
    ensures ByLsn(s, fraud, pos)
  {
    s, pos := [], [];
    for i := 0 to |fraud|
      invariant ByLsn(s, fraud[..i], pos)
    {
      var k := |s|;
      while k > 0 && s[k - 1].lsn > fraud[i].lsn
        invariant 0 <= k <= |s| && forall j :: k <= j < |s| ==> s[j].lsn > fraud[i].lsn
      {
        k := k - 1;
      }
      assert fraud[..i + 1] == fraud[..i] + [fraud[i]];
      InsertedByLsn(s, fraud[..i], pos, k, fraud[i]);
      s, pos := s[..k] + [fraud[i]] + s[k..], pos[..k] + [i] + pos[k..];
    }
    assert fraud[..|fraud|] == fraud;
  }

  /** Entry `k` of the sorted nodes goes before entry `l`. */
  predicate GoesFirst(s: seq<CaseNode>, pos: seq<nat>, k: nat, l: nat)
    requires |pos| == |s| && k < |s| && l < |s|
  {
    s[k].lsn < s[l].lsn || (s[k].lsn == s[l].lsn && pos[k] < pos[l])
  }

  lemma InsertedByLsn(s: seq<CaseNode>, fraud: seq<CaseNode>, pos: seq<nat>, k: nat, n: CaseNode)
    requires ByLsn(s, fraud, pos) && k <= |s| && (k == 0 || s[k - 1].lsn <= n.lsn)
    requires forall j :: k <= j < |s| ==> s[j].lsn > n.lsn
    ensures ByLsn(s[..k] + [n] + s[k..], fraud + [n], pos[..k] + [|fraud|] + pos[k..])
  {
    var s', pos' := s[..k] + [n] + s[k..], pos[..k] + [|fraud|] + pos[k..];
    forall i: nat | i < |s'|
      ensures pos'[i] < |fraud + [n]| && s'[i] == (fraud + [n])[pos'[i]]
    {
      InsertedAt(s, k, n, i);
      InsertedAt(pos, k, |fraud|, i);
    }
    forall i: nat, j: nat | i < j < |s'|
      ensures GoesFirst(s', pos', i, j)
    {
      InsertedOrder(s, fraud, pos, k, n, i, j);
    }
    AllPlaces(fraud, pos, k);
  }

  lemma InsertedOrder(s: seq<CaseNode>, fraud: seq<CaseNode>, pos: seq<nat>, k: nat, n: CaseNode, i: nat, j: nat)
    requires ByLsn(s, fraud, pos) && k <= |s| && (k == 0 || s[k - 1].lsn <= n.lsn)
    requires (forall j :: k <= j < |s| ==> s[j].lsn > n.lsn) && i < j <= |s|
    ensures GoesFirst(s[..k] + [n] + s[k..], pos[..k] + [|fraud|] + pos[k..], i, j)
  {
    InsertedAt(s, k, n, i);
    InsertedAt(s, k, n, j);
    InsertedAt(pos, k, |fraud|, i);
    InsertedAt(pos, k, |fraud|, j);
    if i != k && j != k {
      assert GoesFirst(s, pos, if i < k then i else i - 1, if j < k then j else j - 1);
    } else if j == k && i < k - 1 {
      assert GoesFirst(s, pos, i, k - 1);
    }
  }

  lemma AllPlaces(fraud: seq<CaseNode>, pos: seq<nat>, k: nat)
    requires k <= |pos| && forall i: nat :: i < |fraud| ==> i in pos
    ensures forall i: nat :: i <= |fraud| ==> i in pos[..k] + [|fraud|] + pos[k..]
  {
    assert forall i :: i in pos ==> i in pos[..k] || i in pos[k..];
    assert (pos[..k] + [|fraud|] + pos[k..])[k] == |fraud|;
  }

  lemma InsertedAt<T>(s: seq<T>, k: nat, n: T, i: nat)
    requires k <= |s| && i <= |s|
    ensures (s[..k] + [n] + s[k..])[i] == if i < k then s[i] else if i == k then n else s[i - 1]
  {}

  /** The first node of each case in position order. */
  method FindAnchors(fraud: seq<CaseNode>) returns (anchor: map<Caso, Node>)
    ensures AreAnchors(fraud, anchor)
  {
    var s, pos := SortByLsn(fraud);
    anchor := map[];
    for i := 0 to |s|
      invariant forall j :: 0 <= j < i ==> s[j].caso in anchor
      invariant forall c :: c in anchor ==> exists j :: 0 <= j < i && FirstOfCase(s, j, c, anchor[c])
    {
      if s[i].caso !in anchor {
        anchor := anchor[s[i].caso := s[i].id];
        assert FirstOfCase(s, i, s[i].caso, s[i].id);
      }
    }
    forall c | c in anchor
      ensures IsAnchor(fraud, c, anchor[c])
    {
      var j :| 0 <= j < |s| && FirstOfCase(s, j, c, anchor[c]);
      FirstIsAnchor(fraud, s, pos, j, c, anchor[c]);
    }
    SortKeepsAll(fraud, s, pos);
  }

  lemma SortKeepsAll(fraud: seq<CaseNode>, s: seq<CaseNode>, pos: seq<nat>)
    requires ByLsn(s, fraud, pos)
    ensures forall n :: n in fraud <==> n in s
  {
    forall n | n in fraud
      ensures n in s
    {
      var i: nat :| i < |fraud| && fraud[i] == n;
      assert i in pos;
      var k :| 0 <= k < |pos| && pos[k] == i;
      assert s[k] == n;
    }
  }

  ghost predicate FirstOfCase(s: seq<CaseNode>, j: nat, caso: Caso, id: Node) {
    j < |s| && s[j].caso == caso && s[j].id == id && forall i :: 0 <= i < j ==> s[i].caso != caso
  }

  lemma FirstIsAnchor(fraud: seq<CaseNode>, s: seq<CaseNode>, pos: seq<nat>, j: nat, caso: Caso, id: Node)
    requires ByLsn(s, fraud, pos) && FirstOfCase(s, j, caso, id)
    ensures IsAnchor(fraud, caso, id)
  {
    var i := pos[j];
    forall m | 0 <= m < |fraud| && fraud[m].caso == caso
      ensures fraud[i].lsn < fraud[m].lsn || (fraud[i].lsn == fraud[m].lsn && i <= m)
    {
      assert m in pos;
      var k :| 0 <= k < |pos| && pos[k] == m;
      assert s[k] == fraud[m] && k >= j;
      if k > j {
        assert GoesFirst(s, pos, j, k);
      }
    }
    assert Anchors(fraud, caso, id, i);
  }

  method LinkAnchors(g: FraudBuilder, fraud: seq<CaseNode>, anchor: map<Caso, Node>)
    requires g.Valid() && g.ids == IdsOf(fraud) && AreAnchors(fraud, anchor)
    modifies g
    ensures g.Valid() && g.asked == old(g.asked) + Anchored(fraud, anchor)
  {
    ghost var before := g.asked;
    NothingAnchored(before, anchor);
    for i := 0 to |fraud|
      invariant g.Valid() && AnchoredTo(g.asked, before, fraud, i, anchor)
    {
      AnchorInWindow(fraud, anchor, fraud[i]);
      OneMoreAnchored(g.asked, before, fraud, i, anchor);
      g.Link(fraud[i].id, anchor[fraud[i].caso]);
    }
    assert fraud[..|fraud|] == fraud;
  }

  /** What is asked for once the first `i` nodes are linked to their anchors. */
  ghost predicate AnchoredTo(asked: Links, before: Links, fraud: seq<CaseNode>, i: nat, anchor: map<Caso, Node>) {
    i <= |fraud| && asked == before + Anchored(fraud[..i], anchor)
  }

  lemma NothingAnchored(before: Links, anchor: map<Caso, Node>)
    ensures Anchored([], anchor) == {} && before + {} == before
  {}

  lemma OneMoreAnchored(asked: Links, before: Links, fraud: seq<CaseNode>, i: nat, anchor: map<Caso, Node>)
    requires i < |fraud| && AnchoredTo(asked, before, fraud, i, anchor) && fraud[i].caso in anchor
    ensures AnchoredTo(asked + {(fraud[i].id, anchor[fraud[i].caso])}, before, fraud, i + 1, anchor)
  {
    AnchoredGrows(fraud[..i], fraud[i], anchor);
    assert fraud[..i + 1] == fraud[..i] + [fraud[i]];
  }

  lemma AnchorInWindow(fraud: seq<CaseNode>, anchor: map<Caso, Node>, n: CaseNode)
    requires AreAnchors(fraud, anchor) && n in fraud
    ensures n.id in IdsOf(fraud) && n.caso in anchor && anchor[n.caso] in IdsOf(fraud)
  {
    assert IsAnchor(fraud, n.caso, anchor[n.caso]);
    var i: nat :| Anchors(fraud, n.caso, anchor[n.caso], i);
    assert fraud[i] in fraud;
  }

  lemma AnchoredGrows(fraud: seq<CaseNode>, n: CaseNode, anchor: map<Caso, Node>)
    requires n.caso in anchor
    ensures Anchored(fraud + [n], anchor) == Anchored(fraud, anchor) + {(n.id, anchor[n.caso])}
  {
    assert forall m :: m in fraud + [n] <==> m in fraud || m == n;
  }

  method Build(fraud: seq<CaseNode>) returns (g: FraudBuilder, ghost anchor: map<Caso, Node>)
    ensures fresh(g) && g.Valid() && g.ids == IdsOf(fraud) && AreAnchors(fraud, anchor)
    ensures g.asked == Provenance(fraud, g.ids) + Anchored(fraud, anchor)
    ensures forall a, b :: Connected(g.seen, a, b) <==> Connected(Relation(fraud), a, b)
  {
    g := new FraudBuilder(IdsOf(fraud));
    LinkProvenance(g, fraud);
    var found := FindAnchors(fraud);
    LinkAnchors(g, fraud, found);
    anchor := found;
    SourcesConnect(g.seen, g.asked, fraud, anchor);
  }

  /** The groups of fraud: two nodes share a group exactly when provenance links
      and common cases join them; a case is never split. */
  method Groups(rows: seq<Row>)
      returns (fraud: seq<CaseNode>, edges: seq<(Node, Node)>, groupOf: map<Node, nat>, g: nat,
               ghost anchor: map<Caso, Node>)
    ensures fraud == Kept(rows) && groupOf.Keys == IdsOf(fraud)
    ensures AreAnchors(fraud, anchor) && NoRepeats(edges)
    ensures Draws(edges, Provenance(fraud, IdsOf(fraud)) + Anchored(fraud, anchor))
    ensures forall a, b :: a in groupOf && b in groupOf ==>
              (groupOf[a] == groupOf[b] <==> Connected(Relation(fraud), a, b))
    ensures forall m, n :: m in fraud && n in fraud && m.caso == n.caso ==> groupOf[m.id] == groupOf[n.id]
    ensures forall k: nat :: 1 <= k <= g <==> Used(groupOf, k)
  {
    fraud := Keep(rows);
    var builder;
    builder, anchor := Build(fraud);
    edges := builder.edges;
    EdgesDraw(edges, builder.seen, builder.asked);
    groupOf, g := LabelComponents(builder.ids, builder.adj, builder.seen);
    CasesTogether(fraud, groupOf);
  }

  /** `_fraudes`, on the rows as they come: the ids of rows with a case are grouped
      by what joins them, and the edges are provenance and anchors. */
  method Fraudes(rows: seq<Row>)
      returns (fraud: seq<CaseNode>, edges: seq<(Node, Node)>, groupOf: map<Node, nat>, g: nat,
               ghost anchor: map<Caso, Node>)
    ensures fraud == Kept(rows) && AreAnchors(fraud, anchor)
    ensures Draws(edges, Provenance(fraud, IdsOf(fraud)) + Anchored(fraud, anchor))
    ensures groupOf.Keys == RowIds(rows) == IdsOf(fraud) && RowEdges(rows, edges)
    ensures forall a, b :: a in groupOf && b in groupOf ==>
              (groupOf[a] == groupOf[b] <==> Connected(RowLinks(rows), a, b))
    ensures forall m, n :: m in fraud && n in fraud && m.caso == n.caso ==> groupOf[m.id] == groupOf[n.id]
    ensures forall k: nat :: 1 <= k <= g <==> Used(groupOf, k)
  {
    fraud, edges, groupOf, g, anchor := Groups(rows);
    KeptIds(rows);
    LinksOfRows(rows);
    EdgesOfRows(rows, anchor, edges);
  }

  /** Groups that follow the relation never split a case. */
  lemma CasesTogether(fraud: seq<CaseNode>, groupOf: map<Node, nat>)
    requires groupOf.Keys == IdsOf(fraud)
    requires forall a, b :: a in groupOf && b in groupOf ==>
               (groupOf[a] == groupOf[b] <==> Connected(Relation(fraud), a, b))
    ensures forall m, n :: m in fraud && n in fraud && m.caso == n.caso ==> groupOf[m.id] == groupOf[n.id]
  {
    forall m, n | m in fraud && n in fraud && m.caso == n.caso
      ensures groupOf[m.id] == groupOf[n.id]
    {
      CaseConnected(fraud, m, n);
    }
  }

  lemma SourcesConnect(seen: Links, asked: Links, fraud: seq<CaseNode>, anchor: map<Caso, Node>)
    requires Mirrors(seen, asked) && AreAnchors(fraud, anchor)
    requires asked == Provenance(fraud, IdsOf(fraud)) + Anchored(fraud, anchor)
    ensures forall a, b :: Connected(seen, a, b) <==> Connected(Relation(fraud), a, b)
  {
    forall a, b
      ensures Connected(seen, a, b) <==> Connected(Relation(fraud), a, b)
    {
      MirrorsConnect(seen, asked, a, b);
      AnchorsConnectLikePairs(fraud, anchor, Provenance(fraud, IdsOf(fraud)), a, b);
    }
  }

  lemma CaseConnected(fraud: seq<CaseNode>, m: CaseNode, n: CaseNode)
    requires m in fraud && n in fraud && m.caso == n.caso
    ensures Connected(Relation(fraud), m.id, n.id)
  {
    assert (m.id, n.id) in SameCase(fraud);
    AdjacentConnects(Relation(fraud), m.id, n.id);
  }
}
