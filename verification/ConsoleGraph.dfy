/** The analysis graph of the third console: where its links come from, and which
    nodes end up in one group. */
module AnalysisGraphs {
  import opened Wrappers
  import opened Components

  type Value = string

  /** A row of the window. `id` is absent when falsy, `ent` when no entity key of
      the attributes has a usable value. */
  datatype Row = Row(id: Option<Node>, parents: seq<Node>, ent: Option<Value>, lsn: Option<Value>)

  datatype GraphNode = GraphNode(id: Node, parents: seq<Node>, ent: Option<Value>, lsn: Option<Value>)

  /** A persisted edge, by the log positions of its ends. */
  datatype EdgeRow = EdgeRow(fromLsn: Value, toLsn: Value)

  /** The rows that become nodes. Two rows may carry the same id. */
  function Kept(rows: seq<Row>): seq<GraphNode> {
    if rows == [] then []
    else
      var front, r := Kept(rows[..|rows| - 1]), rows[|rows| - 1];
      if r.id.Some? then front + [GraphNode(r.id.value, r.parents, r.ent, r.lsn)] else front
  }

  function IdsOf(nodes: seq<GraphNode>): set<Node> {
    set n | n in nodes :: n.id
  }

  // ---- the three sources of links, as they are meant ------------------------

  /** A node and each of its parents inside the window. */
  ghost function Provenance(nodes: seq<GraphNode>, ids: set<Node>): Links {
    set n, p | n in nodes && p in n.parents && p in ids :: (n.id, p)
  }

  /** The nodes of one entity value, in window order. */
  function Bucket(nodes: seq<GraphNode>, v: Value): seq<Node> {
    if nodes == [] then []
    else
      var front, n := Bucket(nodes[..|nodes| - 1], v), nodes[|nodes| - 1];
      if n.ent == Some(v) then front + [n.id] else front
  }

  /** A value shared by too many nodes discriminates nothing and links nothing. */
  predicate Discriminates(members: seq<Node>) {
    2 <= |members| <= 150
  }

  ghost function ValuesOf(nodes: seq<GraphNode>): set<Value> {
    set n | n in nodes && n.ent.Some? :: n.ent.value
  }

  /** The entity values, in the order they first occur. */
  function ValueOrder(nodes: seq<GraphNode>): seq<Value> {
    if nodes == [] then []
    else
      var front, n := ValueOrder(nodes[..|nodes| - 1]), nodes[|nodes| - 1];
      if n.ent.Some? && n.ent.value !in front then front + [n.ent.value] else front
  }

  lemma {:induction false} OrderListsValues(nodes: seq<GraphNode>)
    ensures forall v :: v in ValueOrder(nodes) <==> v in ValuesOf(nodes)
  {
    if nodes != [] {
      var front, n := nodes[..|nodes| - 1], nodes[|nodes| - 1];
      OrderListsValues(front);
      ValuesGrow(front, n);
      assert nodes == front + [n];
    }
  }

  // ---- the edges of the three sources, one per link asked for ---------------

  function EdgeOf(a: Node, b: Node): seq<(Node, Node)> {
    if a == b then [] else [(a, b)]
  }

  function FanEdges(a: Node, targets: seq<Node>, ids: set<Node>): seq<(Node, Node)> {
    if targets == [] then []
    else
      var front, b := targets[..|targets| - 1], targets[|targets| - 1];
      FanEdges(a, front, ids) + if b in ids then EdgeOf(a, b) else []
  }

  function ProvenanceEdges(nodes: seq<GraphNode>, ids: set<Node>): seq<(Node, Node)> {
    if nodes == [] then []
    else
      var front, n := nodes[..|nodes| - 1], nodes[|nodes| - 1];
      ProvenanceEdges(front, ids) + FanEdges(n.id, n.parents, ids)
  }

  function StarEdges(nodes: seq<GraphNode>, order: seq<Value>): seq<(Node, Node)> {
    if order == [] then []
    else
      StarEdges(nodes, order[..|order| - 1]) + HubEdges(Bucket(nodes, order[|order| - 1]), IdsOf(nodes))
  }

  function HubEdges(members: seq<Node>, ids: set<Node>): seq<(Node, Node)> {
    if Discriminates(members) then FanEdges(members[0], members[1..], ids) else []
  }

  function PersistedEdges(index: map<Value, Node>, rows: seq<EdgeRow>): seq<(Node, Node)> {
    if rows == [] then []
    else
      var front, e := rows[..|rows| - 1], rows[|rows| - 1];
      PersistedEdges(index, front) +
      if e.fromLsn in index && e.toLsn in index then EdgeOf(index[e.fromLsn], index[e.toLsn]) else []
  }

  /** The edge list: parents, then a star per shared value in the order the values
      first occur, then persisted edges. */
  function EdgeList(nodes: seq<GraphNode>, rows: seq<EdgeRow>): seq<(Node, Node)> {
    ProvenanceEdges(nodes, IdsOf(nodes)) + StarEdges(nodes, ValueOrder(nodes)) + PersistedEdges(LsnIndex(nodes), rows)
  }

  /** Every pair of nodes that share a discriminating entity value. */
  ghost function SharedPairs(nodes: seq<GraphNode>): Links {
    set v, a, b | v in ValuesOf(nodes) && Discriminates(Bucket(nodes, v))
                  && a in Bucket(nodes, v) && b in Bucket(nodes, v) :: (a, b)
  }

  /** The last node with each log position. */
  function LsnIndex(nodes: seq<GraphNode>): map<Value, Node> {
    if nodes == [] then map[]
    else
      var front, n := LsnIndex(nodes[..|nodes| - 1]), nodes[|nodes| - 1];
      if n.lsn.Some? then front[n.lsn.value := n.id] else front
  }

  /** Persisted edges with both ends in the window. */
  ghost function Persisted(index: map<Value, Node>, rows: seq<EdgeRow>): Links {
    set e | e in rows && e.fromLsn in index && e.toLsn in index :: (index[e.fromLsn], index[e.toLsn])
  }

  /** What makes two nodes related. */
  ghost function Relation(nodes: seq<GraphNode>, rows: seq<EdgeRow>): Links {
    Provenance(nodes, IdsOf(nodes)) + SharedPairs(nodes) + Persisted(LsnIndex(nodes), rows)
  }

  // ---- the same, said of the rows ------------------------------------------

  ghost function RowIds(rows: seq<Row>): set<Node> {
    set r | r in rows && r.id.Some? :: r.id.value
  }

  /** A row `a` names the parent `b`, which is the id of a row. */
  ghost predicate RowParent(rows: seq<Row>, a: Node, b: Node) {
    b in RowIds(rows) && exists r :: r in rows && r.id == Some(a) && b in r.parents
  }

  /** The rows with an id that have the entity value. */
  ghost function Holders(rows: seq<Row>, v: Value): set<nat> {
    set i | 0 <= i < |rows| && rows[i].id.Some? && rows[i].ent == Some(v)
  }

  ghost predicate SharedAt(rows: seq<Row>, v: Value, i: nat, j: nat, a: Node, b: Node) {
    && 2 <= |Holders(rows, v)| <= 150 && i in Holders(rows, v) && j in Holders(rows, v)
    && rows[i].id == Some(a) && rows[j].id == Some(b)
  }

  /** Rows `a` and `b` have the same entity value, which 2 to 150 rows have. */
  ghost predicate RowShared(rows: seq<Row>, a: Node, b: Node) {
    exists v: Value, i: nat, j: nat :: SharedAt(rows, v, i, j, a, b)
  }

  ghost predicate StarAt(rows: seq<Row>, v: Value, i: nat, j: nat, a: Node, b: Node) {
    SharedAt(rows, v, i, j, a, b) && i < j && forall k :: k in Holders(rows, v) ==> i <= k
  }

  /** `a` is the first row that has the value, and `b` a later one. */
  ghost predicate RowStar(rows: seq<Row>, a: Node, b: Node) {
    exists v: Value, i: nat, j: nat :: StarAt(rows, v, i, j, a, b)
  }

  /** `a` is the id of the last row with an id that has the log position. */
  ghost predicate LastAt(rows: seq<Row>, lsn: Value, a: Node) {
    exists i: nat :: IsLastAt(rows, lsn, a, i)
  }

  ghost predicate IsLastAt(rows: seq<Row>, lsn: Value, a: Node, i: nat) {
    && i < |rows| && rows[i].id == Some(a) && rows[i].lsn == Some(lsn)
    && forall j :: i < j < |rows| && rows[j].id.Some? ==> rows[j].lsn != Some(lsn)
  }

  ghost predicate RowPersisted(rows: seq<Row>, edgeRows: seq<EdgeRow>, a: Node, b: Node) {
    exists e :: e in edgeRows && LastAt(rows, e.fromLsn, a) && LastAt(rows, e.toLsn, b)
  }

  /** What joins two ids, on the rows as they come: a parent inside the window, a
      shared value or a persisted edge. */
  ghost function RowLinks(rows: seq<Row>, edgeRows: seq<EdgeRow>): Links {
    set a, b | a in RowIds(rows) && b in RowIds(rows)
               && (RowParent(rows, a, b) || RowShared(rows, a, b) || RowPersisted(rows, edgeRows, a, b)) :: (a, b)
  }

  /** Which edges come from which rows: one list per source, one after the other. */
  ghost predicate RowEdges(rows: seq<Row>, edgeRows: seq<EdgeRow>, edges: seq<(Node, Node)>,
                           parents: seq<(Node, Node)>, shared: seq<(Node, Node)>, persisted: seq<(Node, Node)>) {
    && edges == parents + shared + persisted
    && (forall a: Node, b: Node :: (a, b) in parents <==> a != b && RowParent(rows, a, b))
    && (forall a: Node, b: Node :: (a, b) in shared <==> a != b && RowStar(rows, a, b))
    && (forall a: Node, b: Node :: (a, b) in persisted <==> a != b && RowPersisted(rows, edgeRows, a, b))
  }

  lemma {:induction false} KeptRows(rows: seq<Row>, n: GraphNode)
    ensures n in Kept(rows) <==>
            exists r :: r in rows && r.id == Some(n.id) && r.parents == n.parents && r.ent == n.ent && r.lsn == n.lsn
  {
    if rows != [] {
      assert rows == rows[..|rows| - 1] + [rows[|rows| - 1]];
      KeptRows(rows[..|rows| - 1], n);
    }
  }

  lemma KeptIds(rows: seq<Row>)
    ensures IdsOf(Kept(rows)) == RowIds(rows)
  {
    forall r | r in rows && r.id.Some?
      ensures r.id.value in IdsOf(Kept(rows))
    {
      KeptRows(rows, GraphNode(r.id.value, r.parents, r.ent, r.lsn));
    }
    forall n | n in Kept(rows)
      ensures n.id in RowIds(rows)
    {
      KeptRows(rows, n);
    }
  }

  lemma ParentsOfRows(rows: seq<Row>, a: Node, b: Node)
    ensures (a, b) in Provenance(Kept(rows), IdsOf(Kept(rows))) <==> RowParent(rows, a, b)
  {
    KeptIds(rows);
    if (a, b) in Provenance(Kept(rows), IdsOf(Kept(rows))) {
      var n :| n in Kept(rows) && n.id == a && b in n.parents;
      KeptRows(rows, n);
    }
    if RowParent(rows, a, b) {
      var r :| r in rows && r.id == Some(a) && b in r.parents;
      KeptRows(rows, GraphNode(a, r.parents, r.ent, r.lsn));
    }
  }

  /** The places of the rows that have the value, in order. */
  ghost function Places(rows: seq<Row>, v: Value): seq<nat> {
    if rows == [] then []
    else
      var last := |rows| - 1;
      Places(rows[..last], v) + if rows[last].id.Some? && rows[last].ent == Some(v) then [last] else []
  }

  ghost predicate PlacesOf(rows: seq<Row>, v: Value, places: seq<nat>, members: seq<Node>) {
    && |places| == |members|
    && (forall k :: 0 <= k < |places| ==> places[k] in Holders(rows, v) && rows[places[k]].id == Some(members[k]))
    && (forall k, l :: 0 <= k < l < |places| ==> places[k] < places[l])
    && (forall i :: i in Holders(rows, v) ==> i in places)
  }

  lemma {:induction false} BucketPlaces(rows: seq<Row>, v: Value)
    ensures PlacesOf(rows, v, Places(rows, v), Bucket(Kept(rows), v))
    ensures |Holders(rows, v)| == |Places(rows, v)|
  {
    if rows != [] {
      var front, r := rows[..|rows| - 1], rows[|rows| - 1];
      BucketPlaces(front, v);
      HoldersGrow(front, r, v);
      assert rows == front + [r];
      PlacesGrow(front, r, v);
    } else {
      assert Holders(rows, v) == {};
    }
  }

  lemma HoldersGrow(front: seq<Row>, r: Row, v: Value)
    ensures Holders(front + [r], v) == Holders(front, v) + if r.id.Some? && r.ent == Some(v) then {|front|} else {}
    ensures |front| !in Holders(front, v)
  {}

  lemma PlacesStay(front: seq<Row>, r: Row, v: Value, places: seq<nat>, members: seq<Node>)
    requires PlacesOf(front, v, places, members) && !(r.id.Some? && r.ent == Some(v))
    ensures PlacesOf(front + [r], v, places, members)
  {
    HoldersGrow(front, r, v);
    assert forall i :: i in Holders(front, v) ==> (front + [r])[i] == front[i];
  }

  lemma PlacesAppend(front: seq<Row>, r: Row, v: Value, places: seq<nat>, members: seq<Node>)
    requires PlacesOf(front, v, places, members) && r.id.Some? && r.ent == Some(v)
    ensures PlacesOf(front + [r], v, places + [|front|], members + [r.id.value])
  {
    HoldersGrow(front, r, v);
    assert forall i :: i in Holders(front, v) ==> i < |front| && (front + [r])[i] == front[i];
    assert forall i :: i in places ==> i in places + [|front|];
    assert (places + [|front|])[|places|] == |front|;
  }

  lemma PlacesGrow(front: seq<Row>, r: Row, v: Value)
    requires PlacesOf(front, v, Places(front, v), Bucket(Kept(front), v))
    ensures PlacesOf(front + [r], v, Places(front + [r], v), Bucket(Kept(front + [r]), v))
  {
    assert (front + [r])[..|front|] == front;
    KeptGrows(front, r, v);
    if r.id.Some? && r.ent == Some(v) {
      PlacesAppend(front, r, v, Places(front, v), Bucket(Kept(front), v));
    } else {
      PlacesStay(front, r, v, Places(front, v), Bucket(Kept(front), v));
    }
  }

  lemma KeptGrows(front: seq<Row>, r: Row, v: Value)
    ensures Bucket(Kept(front + [r]), v) ==
            Bucket(Kept(front), v) + if r.id.Some? && r.ent == Some(v) then [r.id.value] else []
  {
    var rows := front + [r];
    assert rows[..|front|] == front;
    if r.id.Some? {
      assert Kept(rows)[..|Kept(front)|] == Kept(front);
    }
  }

  lemma SharedOfRows(rows: seq<Row>, a: Node, b: Node)
    ensures (a, b) in SharedPairs(Kept(rows)) <==> RowShared(rows, a, b)
  {
    var nodes := Kept(rows);
    if (a, b) in SharedPairs(nodes) {
      var v :| v in ValuesOf(nodes) && Discriminates(Bucket(nodes, v)) && a in Bucket(nodes, v) &&
        b in Bucket(nodes, v);
      BucketPlaces(rows, v);
      var k :| 0 <= k < |Bucket(nodes, v)| && Bucket(nodes, v)[k] == a;
      var l :| 0 <= l < |Bucket(nodes, v)| && Bucket(nodes, v)[l] == b;
      assert SharedAt(rows, v, Places(rows, v)[k], Places(rows, v)[l], a, b);
    }
    if RowShared(rows, a, b) {
      var v: Value, i: nat, j: nat :| SharedAt(rows, v, i, j, a, b);
      BucketPlaces(rows, v);
      assert i in Places(rows, v) && j in Places(rows, v);
      HasValue(rows, v, i);
    }
  }

  lemma HasValue(rows: seq<Row>, v: Value, i: nat)
    requires i in Holders(rows, v)
    ensures v in ValuesOf(Kept(rows))
  {
    var n := GraphNode(rows[i].id.value, rows[i].parents, rows[i].ent, rows[i].lsn);
    KeptRows(rows, n);
    assert n in Kept(rows);
  }

  lemma {:induction false} IndexOfRows(rows: seq<Row>, lsn: Value, a: Node)
    ensures lsn in LsnIndex(Kept(rows)) && LsnIndex(Kept(rows))[lsn] == a <==> LastAt(rows, lsn, a)
  {
    if rows != [] {
      var front, r := rows[..|rows| - 1], rows[|rows| - 1];
      IndexOfRows(front, lsn, a);
      assert rows == front + [r];
      LastGrows(front, r, lsn, a);
      if r.id.Some? {
        assert Kept(rows)[..|Kept(front)|] == Kept(front);
      }
    }
  }

  lemma LastGrows(front: seq<Row>, r: Row, lsn: Value, a: Node)
    ensures LastAt(front + [r], lsn, a) <==>
            if r.id.Some? && r.lsn == Some(lsn) then r.id == Some(a) else LastAt(front, lsn, a)
  {
    var rows := front + [r];
    assert rows[|front|] == r && forall j :: 0 <= j < |front| ==> rows[j] == front[j];
    if LastAt(rows, lsn, a) && !(r.id.Some? && r.lsn == Some(lsn)) {
      var i: nat :| IsLastAt(rows, lsn, a, i);
      assert IsLastAt(front, lsn, a, i);
    }
    if r.id.Some? && r.lsn == Some(lsn) && r.id == Some(a) {
      assert IsLastAt(rows, lsn, a, |front|);
    } else if LastAt(front, lsn, a) && !(r.id.Some? && r.lsn == Some(lsn)) {
      var i: nat :| IsLastAt(front, lsn, a, i);
      assert IsLastAt(rows, lsn, a, i);
    }
  }

  lemma PersistedOfRows(rows: seq<Row>, edgeRows: seq<EdgeRow>, a: Node, b: Node)
    ensures (a, b) in Persisted(LsnIndex(Kept(rows)), edgeRows) <==> RowPersisted(rows, edgeRows, a, b)
  {
    var index := LsnIndex(Kept(rows));
    forall e | e in edgeRows
      ensures e.fromLsn in index && index[e.fromLsn] == a <==> LastAt(rows, e.fromLsn, a)
      ensures e.toLsn in index && index[e.toLsn] == b <==> LastAt(rows, e.toLsn, b)
    {
      IndexOfRows(rows, e.fromLsn, a);
      IndexOfRows(rows, e.toLsn, b);
    }
    if (a, b) in Persisted(index, edgeRows) {
      var e :| e in edgeRows && e.fromLsn in index && e.toLsn in index && index[e.fromLsn] == a && index[e.toLsn] == b;
      assert LastAt(rows, e.fromLsn, a) && LastAt(rows, e.toLsn, b);
    }
  }

  // ---- which edges come from which rows ------------------------------------

  lemma {:induction false} FanListed(a: Node, targets: seq<Node>, ids: set<Node>, x: Node, y: Node)
    ensures (x, y) in FanEdges(a, targets, ids) <==> x == a && y in targets && y in ids && x != y
  {
    if targets != [] {
      assert targets == targets[..|targets| - 1] + [targets[|targets| - 1]];
      FanListed(a, targets[..|targets| - 1], ids, x, y);
    }
  }

  lemma {:induction false} ProvenanceListed(nodes: seq<GraphNode>, ids: set<Node>, x: Node, y: Node)
    ensures (x, y) in ProvenanceEdges(nodes, ids) <==> x != y && (x, y) in Provenance(nodes, ids)
  {
    if nodes != [] {
      var front, n := nodes[..|nodes| - 1], nodes[|nodes| - 1];
      assert nodes == front + [n];
      ProvenanceListed(front, ids, x, y);
      FanListed(n.id, n.parents, ids, x, y);
      ProvenanceOfMore(front, n, ids, x, y);
    }
  }

  lemma ProvenanceOfMore(front: seq<GraphNode>, n: GraphNode, ids: set<Node>, x: Node, y: Node)
    ensures (x, y) in Provenance(front + [n], ids) <==>
            (x, y) in Provenance(front, ids) || (x == n.id && y in n.parents && y in ids)
  {
    ProvenanceGrows(front, n, ids);
  }

  lemma HubListed(rows: seq<Row>, v: Value, x: Node, y: Node)
    ensures (x, y) in HubEdges(Bucket(Kept(rows), v), IdsOf(Kept(rows))) <==>
            x != y && exists i: nat, j: nat :: StarAt(rows, v, i, j, x, y)
  {
    var members, ids, places := Bucket(Kept(rows), v), IdsOf(Kept(rows)), Places(rows, v);
    BucketPlaces(rows, v);
    BucketWithin(Kept(rows), v);
    if Discriminates(members) {
      FanListed(members[0], members[1..], ids, x, y);
      if x == members[0] && y in members[1..] {
        var l :| 0 <= l < |members[1..]| && members[1..][l] == y;
        assert members[l + 1] == y && StarAt(rows, v, places[0], places[l + 1], x, y);
      }
      if i: nat, j: nat :| StarAt(rows, v, i, j, x, y) {
        FirstPlace(rows, v, places, members, i, j, x, y);
      }
    }
  }

  lemma FirstPlace(rows: seq<Row>, v: Value, places: seq<nat>, members: seq<Node>, i: nat, j: nat, x: Node, y: Node)
    requires PlacesOf(rows, v, places, members) && StarAt(rows, v, i, j, x, y)
    ensures members != [] && x == members[0] && y in members[1..]
  {
    var k :| 0 <= k < |places| && places[k] == i;
    var l :| 0 <= l < |places| && places[l] == j;
    assert places[0] in Holders(rows, v);
    assert k == 0 && members[1..][l - 1] == y;
  }

  lemma {:induction false} StarsListed(rows: seq<Row>, order: seq<Value>, x: Node, y: Node)
    ensures (x, y) in StarEdges(Kept(rows), order) <==>
            x != y && exists v: Value, i: nat, j: nat :: v in order && StarAt(rows, v, i, j, x, y)
  {
    if order != [] {
      var front, last := order[..|order| - 1], order[|order| - 1];
      assert order == front + [last];
      StarsListed(rows, front, x, y);
      HubListed(rows, last, x, y);
    }
  }

  lemma SharedListed(rows: seq<Row>, x: Node, y: Node)
    ensures (x, y) in StarEdges(Kept(rows), ValueOrder(Kept(rows))) <==> x != y && RowStar(rows, x, y)
  {
    var order := ValueOrder(Kept(rows));
    StarsListed(rows, order, x, y);
    OrderListsValues(Kept(rows));
    if RowStar(rows, x, y) {
      var v: Value, i: nat, j: nat :| StarAt(rows, v, i, j, x, y);
      HasValue(rows, v, i);
      assert v in order && StarAt(rows, v, i, j, x, y);
    }
  }

  /** Row `i` has the value, before any row that has the other. */
  ghost predicate FirstBefore(rows: seq<Row>, i: nat, v: Value, other: Value) {
    i in Holders(rows, v) && forall j :: j in Holders(rows, other) ==> i < j
  }

  /** The values are taken in the order in which rows first have them, each once. */
  lemma {:induction false} ValuesByFirstRow(rows: seq<Row>, k: nat, l: nat)
    requires k < l < |ValueOrder(Kept(rows))|
    ensures var order := ValueOrder(Kept(rows)); exists i :: FirstBefore(rows, i, order[k], order[l])
  {
    var front, r := rows[..|rows| - 1], rows[|rows| - 1];
    var order, before := ValueOrder(Kept(rows)), ValueOrder(Kept(front));
    assert rows == front + [r];
    OrderGrows(front, r);
    HoldersGrow(front, r, order[k]);
    HoldersGrow(front, r, order[l]);
    if l < |before| {
      ValuesByFirstRow(front, k, l);
      var i :| FirstBefore(front, i, before[k], before[l]);
      assert FirstBefore(rows, i, order[k], order[l]);
    } else {
      HeldBefore(front, before[k]);
      NotHeldBefore(front, order[l]);
      var i :| i in Holders(front, before[k]);
      assert FirstBefore(rows, i, order[k], order[l]);
    }
  }

  lemma OrderGrows(front: seq<Row>, r: Row)
    ensures var before := ValueOrder(Kept(front));
            ValueOrder(Kept(front + [r])) ==
            before + if r.id.Some? && r.ent.Some? && r.ent.value !in before then [r.ent.value] else []
  {
    var rows := front + [r];
    assert rows[..|front|] == front;
    if r.id.Some? {
      assert Kept(rows)[..|Kept(front)|] == Kept(front);
    }
  }

  lemma HeldBefore(rows: seq<Row>, v: Value)
    requires v in ValueOrder(Kept(rows))
    ensures Holders(rows, v) != {}
  {
    OrderListsValues(Kept(rows));
    var n :| n in Kept(rows) && n.ent == Some(v);
    KeptRows(rows, n);
    var r :| r in rows && r.id == Some(n.id) && r.ent == Some(v);
    var i :| 0 <= i < |rows| && rows[i] == r;
    assert i in Holders(rows, v);
  }

  lemma NotHeldBefore(rows: seq<Row>, v: Value)
    requires v !in ValueOrder(Kept(rows))
    ensures Holders(rows, v) == {}
  {
    OrderListsValues(Kept(rows));
    if i :| i in Holders(rows, v) {
      HasValue(rows, v, i);
    }
  }

  lemma {:induction false} PersistedListed(index: map<Value, Node>, rows: seq<EdgeRow>, x: Node, y: Node)
    ensures (x, y) in PersistedEdges(index, rows) <==> x != y && (x, y) in Persisted(index, rows)
  {
    if rows != [] {
      var front, e := rows[..|rows| - 1], rows[|rows| - 1];
      assert rows == front + [e];
      PersistedListed(index, front, x, y);
      PersistedGrows(index, front, e);
    }
  }

  /** The edge list of the nodes, said of the rows. */
  lemma EdgesOfRows(rows: seq<Row>, edgeRows: seq<EdgeRow>)
    ensures var nodes := Kept(rows);
            RowEdges(rows, edgeRows, EdgeList(nodes, edgeRows), ProvenanceEdges(nodes, IdsOf(nodes)),
                     StarEdges(nodes, ValueOrder(nodes)), PersistedEdges(LsnIndex(nodes), edgeRows))
  {
    var nodes := Kept(rows);
    forall a: Node, b: Node
      ensures (a, b) in ProvenanceEdges(nodes, IdsOf(nodes)) <==> a != b && RowParent(rows, a, b)
      ensures (a, b) in StarEdges(nodes, ValueOrder(nodes)) <==> a != b && RowStar(rows, a, b)
      ensures (a, b) in PersistedEdges(LsnIndex(nodes), edgeRows) <==> a != b && RowPersisted(rows, edgeRows, a, b)
    {
      ProvenanceListed(nodes, IdsOf(nodes), a, b);
      ParentsOfRows(rows, a, b);
      SharedListed(rows, a, b);
      PersistedListed(LsnIndex(nodes), edgeRows, a, b);
      PersistedOfRows(rows, edgeRows, a, b);
    }
  }

  /** The relation of the nodes is the one of the rows. */
  lemma LinksOfRows(rows: seq<Row>, edgeRows: seq<EdgeRow>)
    ensures Relation(Kept(rows), edgeRows) == RowLinks(rows, edgeRows)
  {
    forall a: Node, b: Node
      ensures (a, b) in Relation(Kept(rows), edgeRows) <==> (a, b) in RowLinks(rows, edgeRows)
    {
      LinkOfRows(rows, edgeRows, a, b);
    }
  }

  lemma LinkOfRows(rows: seq<Row>, edgeRows: seq<EdgeRow>, a: Node, b: Node)
    ensures (a, b) in Relation(Kept(rows), edgeRows) <==> (a, b) in RowLinks(rows, edgeRows)
  {
    ParentsOfRows(rows, a, b);
    SharedOfRows(rows, a, b);
    PersistedOfRows(rows, edgeRows, a, b);
    if RowParent(rows, a, b) || RowShared(rows, a, b) || RowPersisted(rows, edgeRows, a, b) {
      EndsAreIds(rows, edgeRows, a, b);
    }
  }

  lemma EndsAreIds(rows: seq<Row>, edgeRows: seq<EdgeRow>, a: Node, b: Node)
    requires RowParent(rows, a, b) || RowShared(rows, a, b) || RowPersisted(rows, edgeRows, a, b)
    ensures a in RowIds(rows) && b in RowIds(rows)
  {
    if RowPersisted(rows, edgeRows, a, b) {
      var e :| e in edgeRows && LastAt(rows, e.fromLsn, a) && LastAt(rows, e.toLsn, b);
      LastIsId(rows, e.fromLsn, a);
      LastIsId(rows, e.toLsn, b);
    } else if RowShared(rows, a, b) {
      var v: Value, i: nat, j: nat :| SharedAt(rows, v, i, j, a, b);
      assert rows[i] in rows && rows[j] in rows;
    }
  }

  lemma LastIsId(rows: seq<Row>, lsn: Value, a: Node)
    requires LastAt(rows, lsn, a)
    ensures a in RowIds(rows)
  {
    var i: nat :| IsLastAt(rows, lsn, a, i);
    assert rows[i] in rows;
  }

  // ---- star per entity -----------------------------------------------------

  ghost function Star(members: seq<Node>): Links {
    if members == [] then {} else set m | m in members[1..] :: (members[0], m)
  }

  ghost function Stars(nodes: seq<GraphNode>, values: set<Value>): Links {
    set v, e | v in values && Discriminates(Bucket(nodes, v)) && e in Star(Bucket(nodes, v)) :: e
  }

  /** Linking the first member to the others connects any two members. */
  lemma StarConnectsPair(links: Links, members: seq<Node>, a: Node, b: Node)
    requires Star(members) <= links && a in members && b in members
    ensures Connected(links, a, b)
  {
    var hub := members[0];
    ToHub(links, members, a);
    ToHub(links, members, b);
    ConnectedSymmetric(links, hub, a);
    ConnectedTransitive(links, a, hub, b);
  }

  lemma ToHub(links: Links, members: seq<Node>, m: Node)
    requires Star(members) <= links && m in members
    ensures Connected(links, members[0], m)
  {
    if m == members[0] {
      ConnectedReflexive(links, m);
    } else {
      assert m in members[1..];
      assert (members[0], m) in Star(members);
      AdjacentConnects(links, members[0], m);
    }
  }

  /** A star per entity gives the same components as linking all its pairs. */
  lemma StarsConnectLikePairs(nodes: seq<GraphNode>, others: Links, a: Node, b: Node)
    ensures Connected(others + Stars(nodes, ValuesOf(nodes)), a, b) <==> Connected(others + SharedPairs(nodes), a, b)
  {
    var stars, pairs := others + Stars(nodes, ValuesOf(nodes)), others + SharedPairs(nodes);
    forall x: Node, y: Node | (x, y) in stars
      ensures Connected(pairs, x, y)
    {
      StarIsPair(nodes, x, y);
      AdjacentConnects(pairs, x, y);
    }
    forall x: Node, y: Node | (x, y) in pairs
      ensures Connected(stars, x, y)
    {
      if (x, y) in others {
        AdjacentConnects(stars, x, y);
      } else {
        var v :| v in ValuesOf(nodes) && Discriminates(Bucket(nodes, v)) && x in Bucket(nodes, v) &&
          y in Bucket(nodes, v);
        StarIncluded(nodes, ValuesOf(nodes), v);
        StarConnectsPair(stars, Bucket(nodes, v), x, y);
      }
    }
    SameComponents(stars, pairs, a, b);
  }

  lemma StarIsPair(nodes: seq<GraphNode>, x: Node, y: Node)
    ensures (x, y) in Stars(nodes, ValuesOf(nodes)) ==> (x, y) in SharedPairs(nodes)
  {
    if (x, y) in Stars(nodes, ValuesOf(nodes)) {
      var v :| v in ValuesOf(nodes) && Discriminates(Bucket(nodes, v)) && (x, y) in Star(Bucket(nodes, v));
      assert x in Bucket(nodes, v) && y in Bucket(nodes, v);
    }
  }

  lemma StarIncluded(nodes: seq<GraphNode>, values: set<Value>, v: Value)
    requires v in values && Discriminates(Bucket(nodes, v))
    ensures Star(Bucket(nodes, v)) <= Stars(nodes, values)
  {}

  // ---- building the graph --------------------------------------------------

  /** The adjacency and the edge list that `link` grows; `asked` is every link
      asked for, loops included. */
  class GraphBuilder {
    const ids: set<Node>
    var adj: Adjacency
    var edges: seq<(Node, Node)>
    ghost var links: Links
    ghost var asked: Links

    ghost predicate Valid()
      reads this
    {
      && IsAdjacency(adj, ids, links) && Mirrors(links, asked)
      && (forall e :: e in edges <==> e in links) && NoLoops(edges)
    }

    constructor (ids: set<Node>)
      ensures Valid() && this.ids == ids && asked == {} && edges == []
    {
      this.ids := ids;
      adj, edges := map id | id in ids :: {}, [];
      links, asked := {}, {};
    }

    method Link(a: Node, b: Node)
      requires Valid() && a in ids && b in ids
      modifies this
      ensures Valid() && asked == old(asked) + {(a, b)}
      ensures edges == old(edges) + EdgeOf(a, b)
    {
      MirrorsGrows(links, asked, a, b);
      asked := asked + {(a, b)};
      if a == b {
        return;
      }
      AdjacencyGrows(adj, ids, links, a, b);
      edges := edges + [(a, b)];
      adj := adj[a := adj[a] + {b}];
      adj := adj[b := adj[b] + {a}];
      links := links + {(a, b)};
    }

    /** Link `a` to each of `targets` inside the window. */
    method LinkEach(a: Node, targets: seq<Node>)
      requires Valid() && a in ids
      modifies this
      ensures Valid() && asked == old(asked) + Fan(a, targets, ids)
      ensures edges == old(edges) + FanEdges(a, targets, ids)
    {
      ghost var asked0, edges0 := asked, edges;
      assert targets[..0] == [] && edges0 + [] == edges0;
      for i := 0 to |targets|
        invariant Valid() && FanDone(asked, edges, asked0, edges0, a, targets[..i], ids)
      {
        OneMoreTarget(asked, edges, asked0, edges0, a, targets[..i], targets[i], ids);
        assert targets[..i + 1] == targets[..i] + [targets[i]];
        if targets[i] in ids {
          Link(a, targets[i]);
        }
      }
      assert targets[..|targets|] == targets;
    }
  }

  /** Links and edges once `a` is linked to the targets in `done`. */
  ghost predicate FanDone(asked: Links, edges: seq<(Node, Node)>, asked0: Links, edges0: seq<(Node, Node)>,
                          a: Node, done: seq<Node>, ids: set<Node>) {
    asked == asked0 + Fan(a, done, ids) && edges == edges0 + FanEdges(a, done, ids)
  }

  lemma OneMoreTarget(asked: Links, edges: seq<(Node, Node)>, asked0: Links, edges0: seq<(Node, Node)>,
                      a: Node, done: seq<Node>, b: Node, ids: set<Node>)
    requires FanDone(asked, edges, asked0, edges0, a, done, ids)
    ensures if b in ids then FanDone(asked + {(a, b)}, edges + EdgeOf(a, b), asked0, edges0, a, done + [b], ids)
            else FanDone(asked, edges, asked0, edges0, a, done + [b], ids)
  {
    assert (done + [b])[..|done|] == done;
    assert Fan(a, done + [b], ids) == Fan(a, done, ids) + if b in ids then {(a, b)} else {};
    if b in ids {
      Regroup(asked0, Fan(a, done, ids), {(a, b)});
      RegroupEdges(edges0, FanEdges(a, done, ids), EdgeOf(a, b));
    }
  }

  method Keep(rows: seq<Row>) returns (nodes: seq<GraphNode>)
    ensures nodes == Kept(rows)
  {
    nodes := [];
    for i := 0 to |rows|
      invariant nodes == Kept(rows[..i])
    {
      assert rows[..i + 1][..i] == rows[..i];
      if rows[i].id.Some? {
        nodes := nodes + [GraphNode(rows[i].id.value, rows[i].parents, rows[i].ent, rows[i].lsn)];
      }
    }
    assert rows[..|rows|] == rows;
  }

  /** The links of provenance, node by node. */
  method LinkProvenance(g: GraphBuilder, nodes: seq<GraphNode>)
    requires g.Valid() && g.ids == IdsOf(nodes)
    modifies g
    ensures g.Valid() && ParentsDone(g.asked, g.edges, old(g.asked), old(g.edges), nodes, |nodes|)
  {
    ghost var asked, edges := g.asked, g.edges;
    NoParentsYet(asked, edges, nodes);
    for i := 0 to |nodes|
      invariant g.Valid() && ParentsDone(g.asked, g.edges, asked, edges, nodes, i)
    {
      assert nodes[i] in nodes;
      OneMoreNode(g.asked, g.edges, asked, edges, nodes, i);
      g.LinkEach(nodes[i].id, nodes[i].parents);
    }
  }

  /** Links and edges once the parents of the first `i` nodes are linked. */
  ghost predicate ParentsDone(asked: Links, edges: seq<(Node, Node)>, asked0: Links, edges0: seq<(Node, Node)>,
                              nodes: seq<GraphNode>, i: nat) {
    && i <= |nodes|
    && asked == asked0 + Provenance(nodes[..i], IdsOf(nodes))
    && edges == edges0 + ProvenanceEdges(nodes[..i], IdsOf(nodes))
  }

  lemma NoParentsYet(asked: Links, edges: seq<(Node, Node)>, nodes: seq<GraphNode>)
    ensures ParentsDone(asked, edges, asked, edges, nodes, 0)
  {
    assert nodes[..0] == [] && edges + [] == edges;
  }

  lemma OneMoreNode(asked: Links, edges: seq<(Node, Node)>, asked0: Links, edges0: seq<(Node, Node)>,
                    nodes: seq<GraphNode>, i: nat)
    requires i < |nodes| && ParentsDone(asked, edges, asked0, edges0, nodes, i)
    ensures ParentsDone(asked + Fan(nodes[i].id, nodes[i].parents, IdsOf(nodes)),
                        edges + FanEdges(nodes[i].id, nodes[i].parents, IdsOf(nodes)), asked0, edges0, nodes, i + 1)
  {
    var ids, fan := IdsOf(nodes), FanEdges(nodes[i].id, nodes[i].parents, IdsOf(nodes));
    ProvenanceGrows(nodes[..i], nodes[i], ids);
    assert nodes[..i + 1] == nodes[..i] + [nodes[i]] && nodes[..i + 1][..i] == nodes[..i];
    RegroupEdges(edges0, ProvenanceEdges(nodes[..i], ids), fan);
    Regroup(asked0, Provenance(nodes[..i], ids), Fan(nodes[i].id, nodes[i].parents, ids));
  }

  lemma Regroup(a: Links, b: Links, c: Links)
    ensures a + b + c == a + (b + c)
  {}

  lemma ProvenanceGrows(nodes: seq<GraphNode>, n: GraphNode, ids: set<Node>)
    ensures Provenance(nodes + [n], ids) == Provenance(nodes, ids) + Fan(n.id, n.parents, ids)
  {
    var more := Provenance(nodes + [n], ids);
    forall e | e in more
      ensures e in Provenance(nodes, ids) + Fan(n.id, n.parents, ids)
    {
      var m, p :| m in nodes + [n] && p in m.parents && p in ids && e == (m.id, p);
      assert m in nodes || m == n;
    }
    forall e | e in Provenance(nodes, ids)
      ensures e in more
    {
      var m, p :| m in nodes && p in m.parents && p in ids && e == (m.id, p);
      assert m in nodes + [n];
    }
    forall e | e in Fan(n.id, n.parents, ids)
      ensures e in more
    {
      assert n in nodes + [n];
    }
  }

  ghost predicate Bucketed(order: seq<Value>, buckets: map<Value, seq<Node>>, nodes: seq<GraphNode>) {
    && order == ValueOrder(nodes) && buckets.Keys == ValuesOf(nodes)
    && forall v :: v in buckets ==> buckets[v] == Bucket(nodes, v)
  }

  function Placed(buckets: map<Value, seq<Node>>, n: GraphNode): map<Value, seq<Node>> {
    if n.ent.None? then buckets
    else
      var v := n.ent.value;
      buckets[v := (if v in buckets then buckets[v] else []) + [n.id]]
  }

  lemma {:induction false} BucketOfOthers(nodes: seq<GraphNode>, v: Value)
    requires v !in ValuesOf(nodes)
    ensures Bucket(nodes, v) == []
  {
    if nodes != [] {
      var front, n := nodes[..|nodes| - 1], nodes[|nodes| - 1];
      assert nodes == front + [n];
      ValuesGrow(front, n);
      BucketOfOthers(front, v);
    }
  }

  lemma OneMoreBucketed(order: seq<Value>, buckets: map<Value, seq<Node>>, nodes: seq<GraphNode>, n: GraphNode)
    requires Bucketed(order, buckets, nodes)
    ensures Bucketed(if n.ent.Some? && n.ent.value !in buckets then order + [n.ent.value] else order,
                     Placed(buckets, n), nodes + [n])
  {
    var more := nodes + [n];
    assert more[..|nodes|] == nodes;
    ValuesGrow(nodes, n);
    OrderListsValues(nodes);
    forall v | v in Placed(buckets, n)
      ensures Placed(buckets, n)[v] == Bucket(more, v)
    {
      if v !in buckets {
        BucketOfOthers(nodes, v);
      }
    }
  }

  /** The members of every entity value, and the values in the dictionary's order. */
  method Buckets(nodes: seq<GraphNode>) returns (order: seq<Value>, buckets: map<Value, seq<Node>>)
    ensures order == ValueOrder(nodes) && buckets.Keys == ValuesOf(nodes)
    ensures forall v :: v in buckets ==> buckets[v] == Bucket(nodes, v)
  {
    order, buckets := [], map[];
    for i := 0 to |nodes|
      invariant Bucketed(order, buckets, nodes[..i])
    {
      OneMoreBucketed(order, buckets, nodes[..i], nodes[i]);
      assert nodes[..i + 1] == nodes[..i] + [nodes[i]];
      if nodes[i].ent.Some? && nodes[i].ent.value !in buckets {
        order := order + [nodes[i].ent.value];
      }
      buckets := Placed(buckets, nodes[i]);
    }
    assert nodes[..|nodes|] == nodes;
  }

  lemma ValuesGrow(nodes: seq<GraphNode>, n: GraphNode)
    ensures ValuesOf(nodes + [n]) == ValuesOf(nodes) + if n.ent.Some? then {n.ent.value} else {}
  {
    assert forall m :: m in nodes + [n] <==> m in nodes || m == n;
  }

  lemma {:induction false} BucketWithin(nodes: seq<GraphNode>, v: Value)
    ensures forall m :: m in Bucket(nodes, v) ==> m in IdsOf(nodes)
  {
    if nodes != [] {
      var front, n := nodes[..|nodes| - 1], nodes[|nodes| - 1];
      BucketWithin(front, v);
      assert nodes == front + [n];
    }
  }

  /** One entity value: the first member is linked to the others. */
  method LinkStar(g: GraphBuilder, members: seq<Node>)
    requires g.Valid() && forall m :: m in members ==> m in g.ids
    modifies g
    ensures g.Valid() && g.asked == old(g.asked) + StarOf(members)
    ensures g.edges == old(g.edges) + HubEdges(members, g.ids)
  {
    if 2 <= |members| <= 150 {
      FanIsStar(members, g.ids);
      g.LinkEach(members[0], members[1..]);
    }
  }

  ghost function StarOf(members: seq<Node>): Links {
    if Discriminates(members) then Star(members) else {}
  }

  /** One entity value: the members of its bucket. */
  method LinkBucket(g: GraphBuilder, nodes: seq<GraphNode>, members: seq<Node>, ghost v: Value,
                    ghost asked: Links, ghost edges: seq<(Node, Node)>, ghost done: seq<Value>)
    requires g.Valid() && g.ids == IdsOf(nodes) && members == Bucket(nodes, v)
    requires StarsDone(g.asked, g.edges, asked, edges, nodes, done)
    modifies g
    ensures g.Valid() && StarsDone(g.asked, g.edges, asked, edges, nodes, done + [v])
  {
    BucketWithin(nodes, v);
    OneMoreStar(g.asked, g.edges, asked, edges, nodes, done, v);
    LinkStar(g, members);
  }

  /** The links of shared entities: a star per discriminating value. */
  method LinkEntities(g: GraphBuilder, nodes: seq<GraphNode>)
    requires g.Valid() && g.ids == IdsOf(nodes)
    modifies g
    ensures g.Valid() && StarsDone(g.asked, g.edges, old(g.asked), old(g.edges), nodes, ValueOrder(nodes))
  {
    var order, buckets := Buckets(nodes);
    OrderListsValues(nodes);
    ghost var asked, edges := g.asked, g.edges;
    NoStarsYet(asked, edges, nodes);
    assert order[..0] == [];
    for i := 0 to |order|
      invariant g.Valid() && StarsDone(g.asked, g.edges, asked, edges, nodes, order[..i])
    {
      LinkBucket(g, nodes, buckets[order[i]], order[i], asked, edges, order[..i]);
      assert order[..i + 1] == order[..i] + [order[i]];
    }
    assert order[..|order|] == order;
  }

  function AsSet(order: seq<Value>): set<Value> {
    set v | v in order
  }

  /** Links and edges once the values listed have their stars. */
  ghost predicate StarsDone(asked: Links, edges: seq<(Node, Node)>, asked0: Links, edges0: seq<(Node, Node)>,
                            nodes: seq<GraphNode>, done: seq<Value>) {
    asked == asked0 + Stars(nodes, AsSet(done)) && edges == edges0 + StarEdges(nodes, done)
  }

  lemma NoStarsYet(asked: Links, edges: seq<(Node, Node)>, nodes: seq<GraphNode>)
    ensures StarsDone(asked, edges, asked, edges, nodes, [])
  {
    assert Stars(nodes, AsSet([])) == {} && edges + [] == edges;
  }

  lemma OneMoreStar(asked: Links, edges: seq<(Node, Node)>, asked0: Links, edges0: seq<(Node, Node)>,
                    nodes: seq<GraphNode>, done: seq<Value>, v: Value)
    requires StarsDone(asked, edges, asked0, edges0, nodes, done)
    ensures StarsDone(asked + StarOf(Bucket(nodes, v)), edges + HubEdges(Bucket(nodes, v), IdsOf(nodes)),
                      asked0, edges0, nodes, done + [v])
  {
    StarsSnoc(nodes, done, v);
    StarEdgesSnoc(nodes, done, v);
    Regroup(asked0, Stars(nodes, AsSet(done)), StarOf(Bucket(nodes, v)));
    RegroupEdges(edges0, StarEdges(nodes, done), HubEdges(Bucket(nodes, v), IdsOf(nodes)));
  }

  lemma StarsSnoc(nodes: seq<GraphNode>, done: seq<Value>, v: Value)
    ensures Stars(nodes, AsSet(done + [v])) == Stars(nodes, AsSet(done)) + StarOf(Bucket(nodes, v))
  {
    assert AsSet(done + [v]) == AsSet(done) + {v};
    StarsGrow(nodes, AsSet(done), v);
  }

  lemma StarEdgesSnoc(nodes: seq<GraphNode>, done: seq<Value>, v: Value)
    ensures StarEdges(nodes, done + [v]) == StarEdges(nodes, done) + HubEdges(Bucket(nodes, v), IdsOf(nodes))
  {
    assert (done + [v])[..|done|] == done;
  }

  lemma RegroupEdges(a: seq<(Node, Node)>, b: seq<(Node, Node)>, c: seq<(Node, Node)>)
    ensures a + b + c == a + (b + c)
  {}

  lemma FanIsStar(members: seq<Node>, ids: set<Node>)
    requires members != [] && forall m :: m in members ==> m in ids
    ensures Fan(members[0], members[1..], ids) == Star(members)
  {}

  lemma StarsGrow(nodes: seq<GraphNode>, values: set<Value>, v: Value)
    ensures Stars(nodes, values + {v}) ==
            Stars(nodes, values) + StarOf(Bucket(nodes, v))
  {}

  method IndexByLsn(nodes: seq<GraphNode>) returns (index: map<Value, Node>)
    ensures index == LsnIndex(nodes)
  {
    index := map[];
    for i := 0 to |nodes|
      invariant index == LsnIndex(nodes[..i])
    {
      assert nodes[..i + 1][..i] == nodes[..i];
      if nodes[i].lsn.Some? {
        index := index[nodes[i].lsn.value := nodes[i].id];
      }
    }
    assert nodes[..|nodes|] == nodes;
  }

  lemma {:induction false} LsnIndexWithin(nodes: seq<GraphNode>, lsn: Value)
    ensures lsn in LsnIndex(nodes) ==> LsnIndex(nodes)[lsn] in IdsOf(nodes)
  {
    if nodes != [] {
      var front, n := nodes[..|nodes| - 1], nodes[|nodes| - 1];
      LsnIndexWithin(front, lsn);
      assert nodes == front + [n];
    }
  }

  /** The persisted edges, skipping those with an end outside the window. */
  method LinkPersisted(g: GraphBuilder, nodes: seq<GraphNode>, rows: seq<EdgeRow>)
    requires g.Valid() && g.ids == IdsOf(nodes)
    modifies g
    ensures g.Valid() && RowsDone(g.asked, g.edges, old(g.asked), old(g.edges), LsnIndex(nodes), rows, |rows|)
  {
    var index := IndexByLsn(nodes);
    ghost var asked, edges := g.asked, g.edges;
    NoRowsYet(asked, edges, index, rows);
    for i := 0 to |rows|
      invariant g.Valid() && RowsDone(g.asked, g.edges, asked, edges, index, rows, i)
    {
      var e := rows[i];
      OneMoreRow(g.asked, g.edges, asked, edges, index, rows, i);
      if e.fromLsn in index && e.toLsn in index {
        LsnIndexWithin(nodes, e.fromLsn);
        LsnIndexWithin(nodes, e.toLsn);
        g.Link(index[e.fromLsn], index[e.toLsn]);
      }
    }
  }

  /** Links and edges once the first `i` persisted rows are linked. */
  ghost predicate RowsDone(asked: Links, edges: seq<(Node, Node)>, asked0: Links, edges0: seq<(Node, Node)>,
                           index: map<Value, Node>, rows: seq<EdgeRow>, i: nat) {
    i <= |rows| && asked == asked0 + Persisted(index, rows[..i]) && edges == edges0 + PersistedEdges(index, rows[..i])
  }

  lemma NoRowsYet(asked: Links, edges: seq<(Node, Node)>, index: map<Value, Node>, rows: seq<EdgeRow>)
    ensures RowsDone(asked, edges, asked, edges, index, rows, 0)
  {
    assert rows[..0] == [] && edges + [] == edges;
  }

  lemma OneMoreRow(asked: Links, edges: seq<(Node, Node)>, asked0: Links, edges0: seq<(Node, Node)>,
                   index: map<Value, Node>, rows: seq<EdgeRow>, i: nat)
    requires i < |rows| && RowsDone(asked, edges, asked0, edges0, index, rows, i)
    ensures var e := rows[i];
            if e.fromLsn in index && e.toLsn in index then
              RowsDone(asked + {(index[e.fromLsn], index[e.toLsn])}, edges + EdgeOf(index[e.fromLsn], index[e.toLsn]),
                       asked0, edges0, index, rows, i + 1)
            else RowsDone(asked, edges, asked0, edges0, index, rows, i + 1)
  {
    var e := rows[i];
    PersistedGrows(index, rows[..i], e);
    assert rows[..i + 1] == rows[..i] + [e] && rows[..i + 1][..i] == rows[..i];
    if e.fromLsn in index && e.toLsn in index {
      var edge := EdgeOf(index[e.fromLsn], index[e.toLsn]);
      Regroup(asked0, Persisted(index, rows[..i]), {(index[e.fromLsn], index[e.toLsn])});
      RegroupEdges(edges0, PersistedEdges(index, rows[..i]), edge);
    }
  }

  lemma PersistedGrows(index: map<Value, Node>, rows: seq<EdgeRow>, e: EdgeRow)
    ensures Persisted(index, rows + [e]) ==
            Persisted(index, rows) +
            if e.fromLsn in index && e.toLsn in index then {(index[e.fromLsn], index[e.toLsn])} else {}
  {
    assert forall x :: x in rows + [e] <==> x in rows || x == e;
  }

  /** All links of the window, source by source. */
  method Build(nodes: seq<GraphNode>, edgeRows: seq<EdgeRow>) returns (g: GraphBuilder)
    ensures fresh(g) && g.Valid() && g.ids == IdsOf(nodes)
    ensures g.asked == Provenance(nodes, g.ids) + Stars(nodes, ValuesOf(nodes)) + Persisted(LsnIndex(nodes), edgeRows)
    ensures g.edges == EdgeList(nodes, edgeRows)
  {
    g := new GraphBuilder(IdsOf(nodes));
    LinkProvenance(g, nodes);
    ghost var asked, edges := g.asked, g.edges;
    assert ParentsDone(asked, edges, {}, [], nodes, |nodes|);
    LinkEntities(g, nodes);
    ghost var asked', edges' := g.asked, g.edges;
    assert StarsDone(asked', edges', asked, edges, nodes, ValueOrder(nodes));
    LinkPersisted(g, nodes, edgeRows);
    AllDone(asked, edges, asked', edges', g.asked, g.edges, nodes, edgeRows);
  }

  lemma AllDone(asked: Links, edges: seq<(Node, Node)>, asked': Links, edges': seq<(Node, Node)>,
                asked'': Links, edges'': seq<(Node, Node)>, nodes: seq<GraphNode>, rows: seq<EdgeRow>)
    requires ParentsDone(asked, edges, {}, [], nodes, |nodes|)
    requires StarsDone(asked', edges', asked, edges, nodes, ValueOrder(nodes))
    requires RowsDone(asked'', edges'', asked', edges', LsnIndex(nodes), rows, |rows|)
    ensures asked'' ==
            Provenance(nodes, IdsOf(nodes)) + Stars(nodes, ValuesOf(nodes)) + Persisted(LsnIndex(nodes), rows)
    ensures edges'' == EdgeList(nodes, rows)
  {
    assert nodes[..|nodes|] == nodes && rows[..|rows|] == rows;
    OrderListsValues(nodes);
    assert AsSet(ValueOrder(nodes)) == ValuesOf(nodes);
    assert [] + ProvenanceEdges(nodes, IdsOf(nodes)) == ProvenanceEdges(nodes, IdsOf(nodes));
  }

  /** The groups of the window: two nodes share a group exactly when a path of
      parent links, shared discriminating values and persisted edges joins them. */
  method Groups(rows: seq<Row>, edgeRows: seq<EdgeRow>)
      returns (nodes: seq<GraphNode>, edges: seq<(Node, Node)>, group: map<Node, nat>, g: nat)
    ensures nodes == Kept(rows) && group.Keys == IdsOf(nodes)
    ensures edges == EdgeList(nodes, edgeRows)
    ensures Draws(edges, Provenance(nodes, IdsOf(nodes)) + Stars(nodes, ValuesOf(nodes))
                         + Persisted(LsnIndex(nodes), edgeRows))
    ensures forall a, b :: a in group && b in group ==>
              (group[a] == group[b] <==> Connected(Relation(nodes, edgeRows), a, b))
    ensures forall k: nat :: 1 <= k <= g <==> Used(group, k)
  {
    nodes := Keep(rows);
    var builder := Build(nodes, edgeRows);
    edges := builder.edges;
    EdgesDraw(edges, builder.links, builder.asked);
    group, g := LabelComponents(builder.ids, builder.adj, builder.links);
    forall a, b | a in group && b in group
      ensures Connected(builder.links, a, b) <==> Connected(Relation(nodes, edgeRows), a, b)
    {
      SourcesConnect(builder.links, builder.asked, nodes, edgeRows, a, b);
    }
  }

  /** `_analyze`, on the rows as they come: the ids of the rows are grouped by what
      joins them, the groups are numbered from 1, and the edges are those of the
      parents, of the shared values and of the persisted edges, in this order. */
  method Analyze(rows: seq<Row>, edgeRows: seq<EdgeRow>)
      returns (nodes: seq<GraphNode>, edges: seq<(Node, Node)>, group: map<Node, nat>, g: nat,
               ghost parents: seq<(Node, Node)>, ghost shared: seq<(Node, Node)>, ghost persisted: seq<(Node, Node)>)
    ensures nodes == Kept(rows) && edges == EdgeList(nodes, edgeRows)
    ensures Draws(edges, Provenance(nodes, IdsOf(nodes)) + Stars(nodes, ValuesOf(nodes))
                         + Persisted(LsnIndex(nodes), edgeRows))
    ensures group.Keys == RowIds(rows)
    ensures forall a, b :: a in group && b in group ==>
              (group[a] == group[b] <==> Connected(RowLinks(rows, edgeRows), a, b))
    ensures forall k: nat :: 1 <= k <= g <==> Used(group, k)
    ensures RowEdges(rows, edgeRows, edges, parents, shared, persisted)
  {
    nodes, edges, group, g := Groups(rows, edgeRows);
    parents := ProvenanceEdges(nodes, IdsOf(nodes));
    shared := StarEdges(nodes, ValueOrder(nodes));
    persisted := PersistedEdges(LsnIndex(nodes), edgeRows);
    KeptIds(rows);
    LinksOfRows(rows, edgeRows);
    EdgesOfRows(rows, edgeRows);
  }

  lemma SourcesConnect(links: Links, asked: Links, nodes: seq<GraphNode>, rows: seq<EdgeRow>, a: Node, b: Node)
    requires Mirrors(links, asked)
    requires asked == Provenance(nodes, IdsOf(nodes)) + Stars(nodes, ValuesOf(nodes)) + Persisted(LsnIndex(nodes), rows)
    ensures Connected(links, a, b) <==> Connected(Relation(nodes, rows), a, b)
  {
    var others := Provenance(nodes, IdsOf(nodes)) + Persisted(LsnIndex(nodes), rows);
    MirrorsConnect(links, asked, a, b);
    StarsConnectLikePairs(nodes, others, a, b);
    assert asked == others + Stars(nodes, ValuesOf(nodes));
    assert Relation(nodes, rows) == others + SharedPairs(nodes);
  }
}
