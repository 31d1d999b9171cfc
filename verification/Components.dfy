/** Undirected links between nodes, what they connect, and the stack-based
    labelling of connected components that both consoles use. Node identifiers
    are only compared, so they are modelled as naturals. */
module Components {
  type Node = nat
  type Links = set<(Node, Node)>
  type Adjacency = map<Node, set<Node>>

  predicate Adjacent(links: Links, a: Node, b: Node) {
    (a, b) in links || (b, a) in links
  }

  /** `b` is `n` links away from `a` along some path. */
  ghost predicate Reach(links: Links, a: Node, b: Node, n: nat)
    decreases n
  {
    if n == 0 then a == b else exists m: Node :: Adjacent(links, a, m) && Reach(links, m, b, n - 1)
  }

  /** A path of links joins `a` and `b`. */
  ghost predicate Connected(links: Links, a: Node, b: Node) {
    exists n: nat :: Reach(links, a, b, n)
  }

  lemma {:induction false} ReachExtends(links: Links, a: Node, b: Node, c: Node, n: nat)
    requires Reach(links, a, b, n) && Adjacent(links, b, c)
    ensures Reach(links, a, c, n + 1)
    decreases n
  {
    if n == 0 {
      assert Reach(links, c, c, 0);
    } else {
      var m: Node :| Adjacent(links, a, m) && Reach(links, m, b, n - 1);
      ReachExtends(links, m, b, c, n - 1);
    }
  }

  lemma {:induction false} ReachReverses(links: Links, a: Node, b: Node, n: nat)
    requires Reach(links, a, b, n)
    ensures Reach(links, b, a, n)
    decreases n
  {
    if n > 0 {
      var m: Node :| Adjacent(links, a, m) && Reach(links, m, b, n - 1);
      ReachReverses(links, m, b, n - 1);
      ReachExtends(links, b, m, a, n - 1);
    }
  }

  lemma {:induction false} ReachJoins(links: Links, a: Node, b: Node, c: Node, m: nat, n: nat)
    requires Reach(links, a, b, m) && Reach(links, b, c, n)
    ensures Reach(links, a, c, m + n)
    decreases m
  {
    if m > 0 {
      var d: Node :| Adjacent(links, a, d) && Reach(links, d, b, m - 1);
      ReachJoins(links, d, b, c, m - 1, n);
    }
  }

  lemma ConnectedReflexive(links: Links, a: Node)
    ensures Connected(links, a, a)
  {
    assert Reach(links, a, a, 0);
  }

  lemma ConnectedSymmetric(links: Links, a: Node, b: Node)
    requires Connected(links, a, b)
    ensures Connected(links, b, a)
  {
    var n: nat :| Reach(links, a, b, n);
    ReachReverses(links, a, b, n);
  }

  lemma ConnectedTransitive(links: Links, a: Node, b: Node, c: Node)
    requires Connected(links, a, b) && Connected(links, b, c)
    ensures Connected(links, a, c)
  {
    var m: nat :| Reach(links, a, b, m);
    var n: nat :| Reach(links, b, c, n);
    ReachJoins(links, a, b, c, m, n);
  }

  lemma AdjacentConnects(links: Links, a: Node, b: Node)
    requires Adjacent(links, a, b)
    ensures Connected(links, a, b)
  {
    assert Reach(links, b, b, 0);
    assert Reach(links, a, b, 1);
  }

  /** No link leaves the set. */
  ghost predicate Closed(links: Links, s: set<Node>) {
    forall a: Node, b: Node :: a in s && Adjacent(links, a, b) ==> b in s
  }

  lemma {:induction false} ReachStaysIn(links: Links, s: set<Node>, a: Node, b: Node, n: nat)
    requires Closed(links, s) && a in s && Reach(links, a, b, n)
    ensures b in s
    decreases n
  {
    if n > 0 {
      var m: Node :| Adjacent(links, a, m) && Reach(links, m, b, n - 1);
      ReachStaysIn(links, s, m, b, n - 1);
    }
  }

  lemma ConnectedStaysIn(links: Links, s: set<Node>, a: Node, b: Node)
    requires Closed(links, s) && a in s && Connected(links, a, b)
    ensures b in s
  {
    var n: nat :| Reach(links, a, b, n);
    ReachStaysIn(links, s, a, b, n);
  }

  /** Links that only join what other links already connect add nothing. */
  lemma {:induction false} ReachThrough(fewer: Links, links: Links, a: Node, b: Node, n: nat)
    requires Reach(links, a, b, n)
    requires forall x: Node, y: Node :: (x, y) in links ==> Connected(fewer, x, y)
    ensures Connected(fewer, a, b)
    decreases n
  {
    if n == 0 {
      ConnectedReflexive(fewer, a);
    } else {
      var m: Node :| Adjacent(links, a, m) && Reach(links, m, b, n - 1);
      ReachThrough(fewer, links, m, b, n - 1);
      if (a, m) !in links {
        ConnectedSymmetric(fewer, m, a);
      }
      ConnectedTransitive(fewer, a, m, b);
    }
  }

  /** Two sets of links connect the same nodes when each link of one joins nodes
      the other connects. */
  lemma SameComponents(p: Links, q: Links, a: Node, b: Node)
    requires forall x: Node, y: Node :: (x, y) in p ==> Connected(q, x, y)
    requires forall x: Node, y: Node :: (x, y) in q ==> Connected(p, x, y)
    ensures Connected(p, a, b) <==> Connected(q, a, b)
  {
    if Connected(p, a, b) {
      var n: nat :| Reach(p, a, b, n);
      ReachThrough(q, p, a, b, n);
    }
    if Connected(q, a, b) {
      var n: nat :| Reach(q, a, b, n);
      ReachThrough(p, q, a, b, n);
    }
  }

  /** The links are those of `spec`, in either direction and without loops. */
  ghost predicate Mirrors(links: Links, spec: Links) {
    && (forall a: Node, b: Node :: (a, b) in links ==> Adjacent(spec, a, b))
    && (forall a: Node, b: Node :: (a, b) in spec ==> a == b || Adjacent(links, a, b))
  }

  lemma MirrorsConnect(links: Links, spec: Links, a: Node, b: Node)
    requires Mirrors(links, spec)
    ensures Connected(links, a, b) <==> Connected(spec, a, b)
  {
    forall x: Node, y: Node | (x, y) in links
      ensures Connected(spec, x, y)
    {
      AdjacentConnects(spec, x, y);
    }
    forall x: Node, y: Node | (x, y) in spec
      ensures Connected(links, x, y)
    {
      if x == y {
        ConnectedReflexive(links, x);
      } else {
        AdjacentConnects(links, x, y);
      }
    }
    SameComponents(links, spec, a, b);
  }

  // ---- labelling -----------------------------------------------------------

  /** `adj` is the two-way adjacency of the links between the given nodes. */
  ghost predicate IsAdjacency(adj: Adjacency, nodes: set<Node>, links: Links) {
    && adj.Keys == nodes
    && (forall a: Node, b: Node :: a in nodes && Adjacent(links, a, b) && a != b ==> b in adj[a])
    && (forall a: Node, b: Node :: a in nodes && b in adj[a] ==> b in nodes && Adjacent(links, a, b))
    && (forall a: Node, b: Node :: (a, b) in links ==> a in nodes && b in nodes)
  }

  /** The links from `a` to each target among the given nodes. */
  ghost function Fan(a: Node, targets: seq<Node>, ids: set<Node>): Links {
    set p | p in targets && p in ids :: (a, p)
  }

  /** The edges drawn are those of the links, in either direction and without loops. */
  ghost predicate Draws(edges: seq<(Node, Node)>, links: Links) {
    && NoLoops(edges)
    && forall a: Node, b: Node :: a != b ==> (Drawn(edges, a, b) <==> Adjacent(links, a, b))
  }

  ghost predicate Drawn(edges: seq<(Node, Node)>, a: Node, b: Node) {
    (a, b) in edges || (b, a) in edges
  }

  ghost predicate NoLoops(edges: seq<(Node, Node)>) {
    forall e :: e in edges ==> e.0 != e.1
  }

  lemma EdgesDraw(edges: seq<(Node, Node)>, links: Links, asked: Links)
    requires NoLoops(edges) && Mirrors(links, asked)
    requires forall a, b :: Drawn(edges, a, b) <==> Adjacent(links, a, b)
    ensures Draws(edges, asked)
  {}

  /** Linking two different nodes in both adjacency sets adds one link. */
  lemma AdjacencyGrows(adj: Adjacency, nodes: set<Node>, links: Links, a: Node, b: Node)
    requires IsAdjacency(adj, nodes, links) && a in nodes && b in nodes && a != b
    ensures IsAdjacency(adj[a := adj[a] + {b}][b := adj[b] + {a}], nodes, links + {(a, b)})
  {}

  lemma ReverseIsFree(adj: Adjacency, nodes: set<Node>, links: Links, a: Node, b: Node)
    requires IsAdjacency(adj, nodes, links) && (a, b) in links
    ensures IsAdjacency(adj, nodes, links + {(b, a)})
  {}

  lemma MirrorsGrows(links: Links, spec: Links, a: Node, b: Node)
    requires Mirrors(links, spec)
    ensures Mirrors(links + {(a, b)}, spec + {(a, b)})
    ensures Mirrors(links + {(a, b), (b, a)}, spec + {(a, b)})
    ensures a == b || Adjacent(links, a, b) ==> Mirrors(links, spec + {(a, b)})
  {}

  ghost predicate Used(group: map<Node, nat>, k: nat) {
    exists a: Node :: a in group && group[a] == k
  }

  /** Labels from 1 to `g`, all used, equal exactly on connected nodes, on a set no link leaves. */
  ghost predicate Labelled(links: Links, group: map<Node, nat>, g: nat) {
    && Closed(links, group.Keys)
    && (forall a: Node :: a in group ==> 1 <= group[a] <= g)
    && (forall k: nat :: 1 <= k <= g ==> Used(group, k))
    && (forall a: Node, b: Node :: a in group && b in group ==> (group[a] == group[b] <==> Connected(links, a, b)))
  }

  /** A set around `root` that no link leaves, of nodes connected to `root`. */
  ghost predicate IsComponent(links: Links, root: Node, comp: set<Node>) {
    && root in comp && Closed(links, comp)
    && (forall x: Node {:trigger Connected(links, root, x)} :: x in comp ==> Connected(links, root, x))
  }

  lemma ComponentExists(links: Links, nodes: set<Node>, root: Node) returns (comp: set<Node>)
    requires root in nodes && Closed(links, nodes)
    ensures comp <= nodes && IsComponent(links, root, comp)
  {
    comp := set x | x in nodes && Connected(links, root, x);
    ConnectedReflexive(links, root);
    forall a: Node, b: Node | a in comp && Adjacent(links, a, b)
      ensures b in comp
    {
      AdjacentConnects(links, a, b);
      ConnectedTransitive(links, root, a, b);
    }
  }

  /** Part of the component `comp` is labelled `g` on top of `base`; its links
      lead to labelled nodes or to nodes still on the stack. */
  ghost predicate Exploring(links: Links, comp: set<Node>, base: map<Node, nat>,
                            group: map<Node, nat>, g: nat, stack: seq<Node>) {
    && base.Keys <= group.Keys && group.Keys - base.Keys <= comp
    && (forall x: Node :: x in base ==> group[x] == base[x])
    && (forall x: Node :: x in group && x !in base ==> group[x] == g)
    && (forall x: Node :: x in stack ==> x in comp)
    && (forall x: Node, y: Node :: x in group && x !in base && Adjacent(links, x, y) ==> y in group || y in stack)
  }

  /** The elements of a set, in some order. */
  method InSomeOrder(s: set<Node>) returns (q: seq<Node>)
    ensures forall x :: x in q <==> x in s
  {
    q := [];
    var left := s;
    while left != {}
      invariant left <= s && forall x :: x in q <==> x in s && x !in left
      decreases |left|
    {
      var x :| x in left;
      q := q + [x];
      left := left - {x};
    }
  }

  /** Popping a node already labelled changes nothing. */
  lemma SkipKeeps(links: Links, comp: set<Node>, base: map<Node, nat>,
                  group: map<Node, nat>, g: nat, stack: seq<Node>)
    requires stack != [] && Exploring(links, comp, base, group, g, stack)
    requires stack[|stack| - 1] in group
    ensures Exploring(links, comp, base, group, g, stack[..|stack| - 1])
  {
    assert stack == stack[..|stack| - 1] + [stack[|stack| - 1]];
  }

  /** Labelling a popped node and pushing its unlabelled neighbours. */
  lemma VisitKeeps(links: Links, comp: set<Node>, adj: set<Node>, base: map<Node, nat>,
                   group: map<Node, nat>, g: nat, stack: seq<Node>, more: seq<Node>)
    requires stack != [] && Closed(links, comp) && Exploring(links, comp, base, group, g, stack)
    requires var x := stack[|stack| - 1];
             && x !in group
             && (forall y: Node :: y in adj ==> Adjacent(links, x, y))
             && (forall y: Node :: Adjacent(links, x, y) && y != x ==> y in adj)
             && (forall y: Node :: y in more <==> y in adj && y !in group && y != x)
    ensures Exploring(links, comp, base, group[stack[|stack| - 1] := g], g, stack[..|stack| - 1] + more)
  {
    assert stack == stack[..|stack| - 1] + [stack[|stack| - 1]];
  }

  /** When the stack is empty the labelled set is closed and correctly labelled. */
  lemma ComponentDone(links: Links, comp: set<Node>, base: map<Node, nat>, root: Node, group: map<Node, nat>, g: nat)
    requires g > 0 && Labelled(links, base, g - 1) && root in group && root !in base
    requires IsComponent(links, root, comp) && Exploring(links, comp, base, group, g, [])
    ensures Labelled(links, group, g)
  {
    forall k: nat | 1 <= k <= g
      ensures Used(group, k)
    {
      if k < g {
        assert Used(base, k);
        var a: Node :| a in base && base[a] == k;
        assert group[a] == k;
      } else {
        assert group[root] == g;
      }
    }
    forall a: Node, b: Node | a in group && b in group
      ensures group[a] == group[b] <==> Connected(links, a, b)
    {
      assert a !in base ==> Connected(links, root, a);
      assert b !in base ==> Connected(links, root, b);
      if a !in base && b !in base {
        ConnectedSymmetric(links, root, a);
        ConnectedTransitive(links, a, root, b);
      } else if a in base && b !in base {
        if Connected(links, a, b) { ConnectedStaysIn(links, base.Keys, a, b); }
      } else if a !in base && b in base {
        if Connected(links, a, b) {
          ConnectedSymmetric(links, a, b);
          ConnectedStaysIn(links, base.Keys, b, a);
        }
      }
    }
  }

  /** Connected components by depth-first search with an explicit stack. */
  method LabelComponents(nodes: set<Node>, adj: Adjacency, ghost links: Links) returns (group: map<Node, nat>, g: nat)
    requires IsAdjacency(adj, nodes, links)
    ensures group.Keys == nodes
    ensures forall a, b :: a in nodes && b in nodes ==> (group[a] == group[b] <==> Connected(links, a, b))
    ensures forall a :: a in nodes ==> 1 <= group[a] <= g
    ensures forall k: nat :: 1 <= k <= g ==> Used(group, k)
  {
    group, g := map[], 0;
    var left := nodes;
    while left != {}
      invariant left <= nodes && nodes - left <= group.Keys <= nodes && Labelled(links, group, g)
      decreases |left|
    {
      var nid :| nid in left;
      left := left - {nid};
      if nid !in group {
        g := g + 1;
        group := Explore(nodes, adj, nid, group, g, links);
      }
    }
  }

  /** Label everything connected to `root`. */
  method Explore(nodes: set<Node>, adj: Adjacency, root: Node, base: map<Node, nat>, g: nat, ghost links: Links)
      returns (group: map<Node, nat>)
    requires IsAdjacency(adj, nodes, links)
    requires g > 0 && Labelled(links, base, g - 1) && base.Keys <= nodes && root in nodes && root !in base
    ensures base.Keys + {root} <= group.Keys <= nodes && Labelled(links, group, g)
  {
    ghost var comp := ComponentExists(links, nodes, root);
    group := base;
    var stack := [root];
    while stack != []
      invariant Exploring(links, comp, base, group, g, stack) && (root in group || root in stack)
      decreases |nodes - group.Keys|, |stack|
    {
      group, stack := Visit(nodes, adj, root, base, group, g, stack, links, comp);
    }
    ComponentDone(links, comp, base, root, group, g);
  }

  /** Pop a node: skip it if labelled, else label it and push its neighbours. */
  method Visit(ghost nodes: set<Node>, adj: Adjacency, ghost root: Node, ghost base: map<Node, nat>,
               group: map<Node, nat>, g: nat, stack: seq<Node>, ghost links: Links, ghost comp: set<Node>)
      returns (group': map<Node, nat>, stack': seq<Node>)
    requires IsAdjacency(adj, nodes, links) && stack != []
    requires comp <= nodes && Closed(links, comp) && Exploring(links, comp, base, group, g, stack)
    requires root in group || root in stack
    ensures Exploring(links, comp, base, group', g, stack') && (root in group' || root in stack')
    ensures |nodes - group'.Keys| < |nodes - group.Keys| || (group' == group && |stack'| < |stack|)
  {
    var x := stack[|stack| - 1];
    assert stack == stack[..|stack| - 1] + [x];
    if x in group {
      SkipKeeps(links, comp, base, group, g, stack);
      return group, stack[..|stack| - 1];
    }
    group' := group[x := g];
    var more := InSomeOrder(adj[x] - group'.Keys);
    VisitKeeps(links, comp, adj[x], base, group, g, stack, more);
    stack' := stack[..|stack| - 1] + more;
    assert nodes - group'.Keys == (nodes - group.Keys) - {x};
  }
}
