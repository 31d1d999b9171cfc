/** The Hybrid Logical Clock: one-step facts with their exact overflow condition,
    and whole-run facts for any number of nodes exchanging messages. */
module HybridClocks {
  import opened Wrappers
  import opened Numbers

  const U64_SIZE: nat := 0x1_0000_0000_0000_0000

  datatype HLCTime = HLCTime(l: nat, c: nat) {
    predicate Lt(other: HLCTime) {
      l < other.l || (l == other.l && c < other.c)
    }
  }

  /** `u64` arithmetic wraps; the ideal clock has an unbounded counter. */
  datatype Arithmetic = Machine | Unbounded

  function Bump(ar: Arithmetic, c: nat): nat {
    if ar.Machine? then (c + 1) % U64_SIZE else c + 1
  }

  function Now(ar: Arithmetic, physical: nat, prev: HLCTime): HLCTime {
    var l := Max(physical, prev.l);
    HLCTime(l, if l == prev.l then Bump(ar, prev.c) else 0)
  }

  function Receive(ar: Arithmetic, physical: nat, prev: HLCTime, msg: HLCTime): HLCTime {
    var l := Max(Max(physical, prev.l), msg.l);
    HLCTime(l,
            if l == prev.l && l == msg.l then Bump(ar, Max(prev.c, msg.c))
            else if l == prev.l then Bump(ar, prev.c)
            else if l == msg.l then Bump(ar, msg.c)
            else 0)
  }

  lemma LtTransitive(a: HLCTime, b: HLCTime, c: HLCTime)
    requires a.Lt(b) && b.Lt(c)
    ensures a.Lt(c)
  {}

  /** On `u64`, `now` keeps its promise exactly when it need not increment the
      largest counter. */
  lemma NowStrictIff(physical: nat, prev: HLCTime)
    requires prev.c < U64_SIZE
    ensures var r := Now(Machine, physical, prev);
            && physical <= r.l
            && (prev.Lt(r) <==> physical > prev.l || prev.c < U64_SIZE - 1)
  {}

  /** `t` ties for the largest of the three times and cannot be incremented. */
  predicate FullAtTop(t: HLCTime, physical: nat, other: HLCTime) {
    t.c == U64_SIZE - 1 && t.l >= physical && t.l >= other.l
  }

  /** On `u64`, `receive` keeps its promise exactly when neither the previous
      clock nor the message ties for the largest time with a full counter. */
  lemma ReceiveStrictIff(physical: nat, prev: HLCTime, msg: HLCTime)
    requires prev.c < U64_SIZE && msg.c < U64_SIZE
    ensures var r := Receive(Machine, physical, prev, msg);
            && physical <= r.l
            && (prev.Lt(r) && msg.Lt(r) <==> !FullAtTop(prev, physical, msg) && !FullAtTop(msg, physical, prev))
  {}

  /** The promise does fail: a full counter goes back to 0 under the same `l`. */
  lemma NowCanGoBack()
    ensures var prev := HLCTime(5, U64_SIZE - 1);
            Now(Machine, 3, prev) == HLCTime(5, 0) && Now(Machine, 3, prev).Lt(prev)
  {}

  /** And a message with a full counter sends the clock of its receiver back. */
  lemma ReceiveCanGoBack()
    ensures var prev, msg := HLCTime(5, 7), HLCTime(5, U64_SIZE - 1);
            var r := Receive(Machine, 3, prev, msg);
            r == HLCTime(5, 0) && r.Lt(prev) && r.Lt(msg)
  {}

  // ---- runs ----------------------------------------------------------------

  /** What happens at a node: a local or send event stamped by `now`, or the
      receipt of the clock carried by event number `from`. Messages may be
      delayed, reordered, duplicated or lost. */
  datatype Event =
    | Local(node: nat, physical: nat)
    | Receipt(node: nat, physical: nat, from: nat)

  type Clocks = nat -> HLCTime

  /** Messages come from earlier events. */
  ghost predicate WellFormed(run: seq<Event>) {
    forall i :: 0 <= i < |run| && run[i].Receipt? ==> run[i].from < i
  }

  /** The nodes' clocks and the clock given to each event so far. */
  datatype State = State(clocks: Clocks, stamps: seq<HLCTime>)

  function Step(ar: Arithmetic, s: State, e: Event): State
    requires e.Receipt? ==> e.from < |s.stamps|
  {
    var prev := s.clocks(e.node);
    var stamp := match e
      case Local(_, physical) => Now(ar, physical, prev)
      case Receipt(_, physical, from) => Receive(ar, physical, prev, s.stamps[from]);
    State((n: nat) => if n == e.node then stamp else s.clocks(n), s.stamps + [stamp])
  }

  /** All nodes, stepping one event at a time from their initial clocks. */
  function Execute(ar: Arithmetic, init: Clocks, run: seq<Event>): (s: State)
    requires WellFormed(run)
    ensures |s.stamps| == |run|
  {
    if run == [] then State(init, [])
    else Step(ar, Execute(ar, init, run[..|run| - 1]), run[|run| - 1])
  }

  /** The last event of `node` among the first `n`. */
  function LastOf(run: seq<Event>, node: nat, n: nat): (e: Option<nat>)
    requires n <= |run|
    ensures e.Some? ==> e.value < n && run[e.value].node == node
  {
    if n == 0 then None
    else if run[n - 1].node == node then Some(n - 1)
    else LastOf(run, node, n - 1)
  }

  /** The clock of event `i` in terms of the events it depends on directly. */
  function Stamp(ar: Arithmetic, init: Clocks, run: seq<Event>, i: nat): HLCTime
    requires WellFormed(run) && i < |run|
    decreases i, 1
  {
    var prev := Before(ar, init, run, i);
    match run[i]
    case Local(_, physical) => Now(ar, physical, prev)
    case Receipt(_, physical, from) => Receive(ar, physical, prev, Stamp(ar, init, run, from))
  }

  /** The node's clock just before event `i`. */
  function Before(ar: Arithmetic, init: Clocks, run: seq<Event>, i: nat): HLCTime
    requires WellFormed(run) && i < |run|
    decreases i, 0
  {
    match LastOf(run, run[i].node, i)
    case None => init(run[i].node)
    case Some(j) => Stamp(ar, init, run, j)
  }

  lemma {:induction false} LastOfPrefix(run: seq<Event>, node: nat, n: nat, m: nat)
    requires n <= m <= |run|
    ensures LastOf(run[..m], node, n) == LastOf(run, node, n)
  {
    if n > 0 {
      LastOfPrefix(run, node, n - 1, m);
    }
  }

  lemma {:induction false} StampPrefix(ar: Arithmetic, init: Clocks, run: seq<Event>, i: nat, m: nat)
    requires WellFormed(run) && i < m <= |run|
    ensures WellFormed(run[..m]) && Stamp(ar, init, run[..m], i) == Stamp(ar, init, run, i)
    decreases i
  {
    LastOfPrefix(run, run[i].node, i, m);
    if LastOf(run, run[i].node, i).Some? {
      StampPrefix(ar, init, run, LastOf(run, run[i].node, i).value, m);
    }
    if run[i].Receipt? {
      StampPrefix(ar, init, run, run[i].from, m);
    }
  }

  /** Executing the nodes gives every event exactly that clock. */
  lemma {:induction false} ExecuteStamps(ar: Arithmetic, init: Clocks, run: seq<Event>, i: nat)
    requires WellFormed(run) && i < |run|
    ensures Execute(ar, init, run).stamps[i] == Stamp(ar, init, run, i)
    decreases |run|, 0
  {
    var last := |run| - 1;
    var front := run[..last];
    if i < last {
      ExecuteStamps(ar, init, front, i);
      StampPrefix(ar, init, run, i, last);
    } else {
      ClockIsLastStamp(ar, init, front, run[i].node);
      LastOfPrefix(run, run[i].node, last, last);
      if LastOf(run, run[i].node, last).Some? {
        StampPrefix(ar, init, run, LastOf(run, run[i].node, last).value, last);
      }
      if run[i].Receipt? {
        ExecuteStamps(ar, init, front, run[i].from);
        StampPrefix(ar, init, run, run[i].from, last);
      }
    }
  }

  lemma {:induction false} ClockIsLastStamp(ar: Arithmetic, init: Clocks, run: seq<Event>, node: nat)
    requires WellFormed(run)
    ensures Execute(ar, init, run).clocks(node) ==
            match LastOf(run, node, |run|) case None => init(node) case Some(j) => Stamp(ar, init, run, j)
    decreases |run|, 1
  {
    if run != [] {
      var last := |run| - 1;
      var front := run[..last];
      if run[last].node == node {
        ExecuteStamps(ar, init, run, last);
      } else {
        ClockIsLastStamp(ar, init, front, node);
        LastOfPrefix(run, node, last, last);
        if LastOf(run, node, last).Some? {
          StampPrefix(ar, init, run, LastOf(run, node, last).value, last);
        }
      }
    }
  }

  // ---- happened-before -----------------------------------------------------

  /** `e` precedes `f` at the same node, or `f` receives the clock of `e`. */
  ghost predicate Directly(run: seq<Event>, e: nat, f: nat) {
    e < f < |run| && (run[e].node == run[f].node || (run[f].Receipt? && run[f].from == e))
  }

  /** The transitive closure. */
  ghost predicate HappensBefore(run: seq<Event>, e: nat, f: nat)
    decreases f
  {
    e < f < |run| &&
    (Directly(run, e, f) || exists g: nat :: g < f && Directly(run, g, f) && HappensBefore(run, e, g))
  }

  lemma StepStrict(ar: Arithmetic, physical: nat, prev: HLCTime, msg: HLCTime)
    requires ar.Unbounded?
    ensures prev.Lt(Now(ar, physical, prev))
    ensures prev.Lt(Receive(ar, physical, prev, msg)) && msg.Lt(Receive(ar, physical, prev, msg))
  {}

  lemma {:induction false} LastOfIsLatest(run: seq<Event>, node: nat, n: nat, e: nat)
    requires e < n <= |run| && run[e].node == node
    ensures LastOf(run, node, n).Some? && e <= LastOf(run, node, n).value
  {
    if run[n - 1].node != node {
      LastOfIsLatest(run, node, n - 1, e);
    }
  }

  /** Each node's clocks strictly increase. */
  lemma {:induction false} NodeClocksIncrease(init: Clocks, run: seq<Event>, e: nat, f: nat)
    requires WellFormed(run) && e < f < |run| && run[e].node == run[f].node
    ensures Stamp(Unbounded, init, run, e).Lt(Stamp(Unbounded, init, run, f))
    decreases f
  {
    var prev, stamp := Before(Unbounded, init, run, f), Stamp(Unbounded, init, run, f);
    var msg := if run[f].Receipt? then Stamp(Unbounded, init, run, run[f].from) else prev;
    StepStrict(Unbounded, run[f].physical, prev, msg);
    LastOfIsLatest(run, run[f].node, f, e);
    var g := LastOf(run, run[f].node, f).value;
    if e < g {
      NodeClocksIncrease(init, run, e, g);
      LtTransitive(Stamp(Unbounded, init, run, e), prev, stamp);
    }
  }

  lemma DirectlyOrders(init: Clocks, run: seq<Event>, e: nat, f: nat)
    requires WellFormed(run) && Directly(run, e, f)
    ensures Stamp(Unbounded, init, run, e).Lt(Stamp(Unbounded, init, run, f))
  {
    if run[e].node == run[f].node {
      NodeClocksIncrease(init, run, e, f);
    } else {
      StepStrict(Unbounded, run[f].physical, Before(Unbounded, init, run, f), Stamp(Unbounded, init, run, e));
    }
  }

  /** Clocks respect causality over whole runs. */
  lemma {:induction false} CausalityOrdersClocks(init: Clocks, run: seq<Event>, e: nat, f: nat)
    requires WellFormed(run) && HappensBefore(run, e, f)
    ensures Stamp(Unbounded, init, run, e).Lt(Stamp(Unbounded, init, run, f))
    decreases f
  {
    if Directly(run, e, f) {
      DirectlyOrders(init, run, e, f);
    } else {
      var g: nat :| g < f && Directly(run, g, f) && HappensBefore(run, e, g);
      CausalityOrdersClocks(init, run, e, g);
      DirectlyOrders(init, run, g, f);
      LtTransitive(Stamp(Unbounded, init, run, e), Stamp(Unbounded, init, run, g), Stamp(Unbounded, init, run, f));
    }
  }

  // ---- the causal past -----------------------------------------------------

  ghost function PastOfPrev(run: seq<Event>, i: nat): set<nat>
    requires WellFormed(run) && i < |run|
    decreases i, 0
  {
    match LastOf(run, run[i].node, i) case None => {} case Some(j) => Past(run, j)
  }

  /** Event `i` and everything that happened before it. */
  ghost function Past(run: seq<Event>, i: nat): set<nat>
    requires WellFormed(run) && i < |run|
    decreases i, 1
  {
    {i} + PastOfPrev(run, i) + (if run[i].Receipt? then Past(run, run[i].from) else {})
  }

  lemma {:induction false} PastWithin(run: seq<Event>, i: nat)
    requires WellFormed(run) && i < |run|
    ensures i in Past(run, i) && forall e :: e in Past(run, i) ==> e <= i
    decreases i
  {
    if LastOf(run, run[i].node, i).Some? {
      PastWithin(run, LastOf(run, run[i].node, i).value);
    }
    if run[i].Receipt? {
      PastWithin(run, run[i].from);
    }
  }

  lemma {:induction false} HappensBeforeTransitive(run: seq<Event>, e: nat, f: nat, g: nat)
    requires HappensBefore(run, e, f) && HappensBefore(run, f, g)
    ensures HappensBefore(run, e, g)
    decreases g
  {
    if !Directly(run, f, g) {
      var h: nat :| h < g && Directly(run, h, g) && HappensBefore(run, f, h);
      HappensBeforeTransitive(run, e, f, h);
    }
  }

  /** The set built step by step is the causal past. */
  lemma {:induction false} PastIsHappensBefore(run: seq<Event>, i: nat, e: nat)
    requires WellFormed(run) && i < |run|
    ensures e in Past(run, i) <==> e == i || HappensBefore(run, e, i)
    decreases i
  {
    var prev := LastOf(run, run[i].node, i);
    if prev.Some? {
      PastIsHappensBefore(run, prev.value, e);
      assert Directly(run, prev.value, i);
    }
    if run[i].Receipt? {
      PastIsHappensBefore(run, run[i].from, e);
      assert Directly(run, run[i].from, i);
    }
    if HappensBefore(run, e, i) {
      var g: nat :=
        if Directly(run, e, i) then e
        else
          var g: nat :| g < i && Directly(run, g, i) && HappensBefore(run, e, g);
          g;
      if run[g].node == run[i].node {
        LastOfIsLatest(run, run[i].node, i, g);
        assert g == prev.value || Directly(run, g, prev.value);
        if e != prev.value && e != g {
          HappensBeforeReaches(run, e, g, prev.value);
        }
      }
    }
  }

  lemma HappensBeforeReaches(run: seq<Event>, e: nat, g: nat, h: nat)
    requires HappensBefore(run, e, g) && (g == h || Directly(run, g, h))
    ensures HappensBefore(run, e, h)
  {}

  // ---- what `l` and `c` are ------------------------------------------------

  /** `l` is a reading or an initial `l` of the causal past of `i`. */
  ghost predicate Attained(init: Clocks, run: seq<Event>, i: nat, l: nat)
    requires WellFormed(run) && i < |run|
  {
    exists e :: e in Past(run, i) && e < |run| && (l == run[e].physical || l == init(run[e].node).l)
  }

  ghost predicate UpperBound(init: Clocks, run: seq<Event>, i: nat, l: nat)
    requires WellFormed(run) && i < |run|
  {
    forall e :: e in Past(run, i) && e < |run| ==> run[e].physical <= l && init(run[e].node).l <= l
  }

  lemma {:induction false} PhysicalPartAttained(ar: Arithmetic, init: Clocks, run: seq<Event>, i: nat)
    requires WellFormed(run) && i < |run|
    ensures Attained(init, run, i, Stamp(ar, init, run, i).l)
    decreases i
  {
    PastWithin(run, i);
    if LastOf(run, run[i].node, i).Some? {
      var j := LastOf(run, run[i].node, i).value;
      PhysicalPartAttained(ar, init, run, j);
      AttainedLater(init, run, j, i, Stamp(ar, init, run, j).l);
    }
    if run[i].Receipt? {
      var j := run[i].from;
      PhysicalPartAttained(ar, init, run, j);
      AttainedLater(init, run, j, i, Stamp(ar, init, run, j).l);
    }
    assert Attained(init, run, i, run[i].physical) && Attained(init, run, i, init(run[i].node).l) by {
      assert i in Past(run, i);
    }
    var l := Stamp(ar, init, run, i).l;
    assert l == run[i].physical || l == Before(ar, init, run, i).l
           || (run[i].Receipt? && l == Stamp(ar, init, run, run[i].from).l);
  }

  lemma {:induction false} PhysicalPartBounds(ar: Arithmetic, init: Clocks, run: seq<Event>, i: nat)
    requires WellFormed(run) && i < |run|
    ensures UpperBound(init, run, i, Stamp(ar, init, run, i).l)
    decreases i
  {
    PastWithin(run, i);
    if LastOf(run, run[i].node, i).Some? {
      var j := LastOf(run, run[i].node, i).value;
      PhysicalPartBounds(ar, init, run, j);
      NodeInitBelow(ar, init, run, j);
    }
    if run[i].Receipt? {
      PhysicalPartBounds(ar, init, run, run[i].from);
    }
  }

  /** The `l` of a clock is exactly the largest physical reading or initial `l`
      in the event's causal past. */
  lemma PhysicalPartIsMaximum(ar: Arithmetic, init: Clocks, run: seq<Event>, i: nat)
    requires WellFormed(run) && i < |run|
    ensures var l := Stamp(ar, init, run, i).l; Attained(init, run, i, l) && UpperBound(init, run, i, l)
  {
    PhysicalPartAttained(ar, init, run, i);
    PhysicalPartBounds(ar, init, run, i);
  }

  lemma AttainedLater(init: Clocks, run: seq<Event>, j: nat, i: nat, l: nat)
    requires WellFormed(run) && j < |run| && i < |run| && Past(run, j) <= Past(run, i) && Attained(init, run, j, l)
    ensures Attained(init, run, i, l)
  {}

  lemma NodeInitBelow(ar: Arithmetic, init: Clocks, run: seq<Event>, i: nat)
    requires WellFormed(run) && i < |run| && UpperBound(init, run, i, Stamp(ar, init, run, i).l)
    ensures init(run[i].node).l <= Stamp(ar, init, run, i).l
  {
    PastWithin(run, i);
  }

  /** The events of the causal past of `i` whose clock has the given `l`. */
  ghost function EventsAt(init: Clocks, run: seq<Event>, i: nat, l: nat): set<nat>
    requires WellFormed(run) && i < |run|
  {
    set e | e in Past(run, i) && e < |run| && Stamp(Unbounded, init, run, e).l == l
  }

  /** The nodes of the causal past of `i` whose initial clock has the given `l`. */
  ghost function NodesAt(init: Clocks, run: seq<Event>, i: nat, l: nat): set<nat>
    requires WellFormed(run) && i < |run|
  {
    set e | e in Past(run, i) && e < |run| && init(run[e].node).l == l :: run[e].node
  }

  ghost function Budget(init: Clocks, run: seq<Event>, i: nat, l: nat, c0: nat): nat
    requires WellFormed(run) && i < |run|
  {
    c0 + |EventsAt(init, run, i, l)| + |NodesAt(init, run, i, l)|
  }

  /** An event adds itself to the budget of any event of its past with the same `l`. */
  lemma BudgetGrows(init: Clocks, run: seq<Event>, j: nat, i: nat, c0: nat)
    requires WellFormed(run) && j < i < |run| && Past(run, j) <= Past(run, i)
    requires Stamp(Unbounded, init, run, j).l == Stamp(Unbounded, init, run, i).l
    ensures var l := Stamp(Unbounded, init, run, i).l;
            Budget(init, run, j, l, c0) < Budget(init, run, i, l, c0)
  {
    var l := Stamp(Unbounded, init, run, i).l;
    PastWithin(run, i);
    PastWithin(run, j);
    assert i in EventsAt(init, run, i, l) && i !in EventsAt(init, run, j, l);
    SubsetSize(EventsAt(init, run, j, l) + {i}, EventsAt(init, run, i, l));
    SubsetSize(NodesAt(init, run, j, l), NodesAt(init, run, i, l));
  }

  lemma BudgetStarts(init: Clocks, run: seq<Event>, i: nat, c0: nat)
    requires WellFormed(run) && i < |run|
    ensures var l := Stamp(Unbounded, init, run, i).l;
            Budget(init, run, i, l, c0) >= c0 + (if init(run[i].node).l == l then 2 else 1)
  {
    var l := Stamp(Unbounded, init, run, i).l;
    PastWithin(run, i);
    SubsetSize({i}, EventsAt(init, run, i, l));
    if init(run[i].node).l == l {
      SubsetSize({run[i].node}, NodesAt(init, run, i, l));
    }
  }

  /** The counter is below the number of causal-past events and initial clocks
      with the same `l`, the event itself included (plus the largest initial
      counter, if those do not start at 0). */
  lemma {:induction false} CounterBound(init: Clocks, run: seq<Event>, i: nat, c0: nat)
    requires WellFormed(run) && i < |run|
    requires forall n: nat :: init(n).c <= c0
    ensures var t := Stamp(Unbounded, init, run, i); t.c < Budget(init, run, i, t.l, c0)
    decreases i
  {
    var prev := LastOf(run, run[i].node, i);
    BudgetStarts(init, run, i, c0);
    if prev.Some? {
      CounterBound(init, run, prev.value, c0);
      if Stamp(Unbounded, init, run, prev.value).l == Stamp(Unbounded, init, run, i).l {
        BudgetGrows(init, run, prev.value, i, c0);
      }
    }
    if run[i].Receipt? {
      CounterBound(init, run, run[i].from, c0);
      if Stamp(Unbounded, init, run, run[i].from).l == Stamp(Unbounded, init, run, i).l {
        BudgetGrows(init, run, run[i].from, i, c0);
      }
    }
  }

  ghost function NodesOf(run: seq<Event>): set<nat> {
    set e | e in run :: e.node
  }

  lemma {:induction false} EventSetSize(s: set<nat>, n: nat)
    requires forall e :: e in s ==> e < n
    ensures |s| <= n
  {
    if n > 0 {
      EventSetSize(s - {n - 1}, n - 1);
      SubsetSize(s, s - {n - 1} + {n - 1});
    } else {
      assert s == {};
    }
  }

  lemma BudgetWithinRun(init: Clocks, run: seq<Event>, i: nat, l: nat, c0: nat)
    requires WellFormed(run) && i < |run|
    ensures Budget(init, run, i, l, c0) <= c0 + |run| + |NodesOf(run)|
  {
    EventSetSize(EventsAt(init, run, i, l), |run|);
    SubsetSize(NodesAt(init, run, i, l), NodesOf(run));
  }

  /** While events, nodes and initial counters together stay within 2^64, the
      `u64` clocks are the ideal clocks: no counter ever wraps. */
  lemma {:induction false} MachineIsUnbounded(init: Clocks, run: seq<Event>, i: nat, c0: nat)
    requires WellFormed(run) && i < |run|
    requires forall n: nat :: init(n).c <= c0
    requires c0 + |run| + |NodesOf(run)| <= U64_SIZE
    ensures Stamp(Machine, init, run, i) == Stamp(Unbounded, init, run, i)
    ensures Stamp(Machine, init, run, i).c < U64_SIZE
    decreases i
  {
    var t := Stamp(Unbounded, init, run, i);
    if LastOf(run, run[i].node, i).Some? {
      MachineIsUnbounded(init, run, LastOf(run, run[i].node, i).value, c0);
    }
    if run[i].Receipt? {
      MachineIsUnbounded(init, run, run[i].from, c0);
    }
    CounterBound(init, run, i, c0);
    BudgetWithinRun(init, run, i, t.l, c0);
    NoWrapStep(run[i].physical, Before(Unbounded, init, run, i),
               if run[i].Receipt? then Stamp(Unbounded, init, run, run[i].from) else Before(Unbounded, init, run, i));
  }

  lemma NoWrapStep(physical: nat, prev: HLCTime, msg: HLCTime)
    ensures Now(Unbounded, physical, prev).c < U64_SIZE ==>
            Now(Machine, physical, prev) == Now(Unbounded, physical, prev)
    ensures Receive(Unbounded, physical, prev, msg).c < U64_SIZE ==>
              Receive(Machine, physical, prev, msg) == Receive(Unbounded, physical, prev, msg)
  {}

  /** So on real machines causality orders the clocks of every such run. */
  lemma MachineCausality(init: Clocks, run: seq<Event>, e: nat, f: nat, c0: nat)
    requires WellFormed(run) && HappensBefore(run, e, f)
    requires forall n: nat :: init(n).c <= c0
    requires c0 + |run| + |NodesOf(run)| <= U64_SIZE
    ensures Execute(Machine, init, run).stamps[e].Lt(Execute(Machine, init, run).stamps[f])
  {
    CausalityOrdersClocks(init, run, e, f);
    MachineIsUnbounded(init, run, e, c0);
    MachineIsUnbounded(init, run, f, c0);
    ExecuteStamps(Machine, init, run, e);
    ExecuteStamps(Machine, init, run, f);
  }

  /** The bound is tight: one node whose physical clock stands still counts every
      event, and its first clock to wrap is that of event number 2^64 - 1. */
  lemma {:induction false} StandstillCounts(init: Clocks, run: seq<Event>, i: nat)
    requires init(0) == HLCTime(0, 0) && i < |run|
    requires forall j :: 0 <= j < |run| ==> run[j] == Local(0, 0)
    ensures WellFormed(run)
    ensures Stamp(Unbounded, init, run, i) == HLCTime(0, i + 1)
    ensures Stamp(Machine, init, run, i) == HLCTime(0, (i + 1) % U64_SIZE)
    decreases i
  {
    if i > 0 {
      StandstillCounts(init, run, i - 1);
      assert LastOf(run, 0, i) == Some(i - 1);
    }
  }
}
