/** How often one subject is authorized over whole runs of the gateway. The store
    answers for the record of a subject with the lowest id, so the answer depends
    on where the ids of new records fall. */
module SubjectUses {
  import opened Wrappers
  import opened Gateways
  import opened Admissions
  import opened Modes
  import A = Approvals

  /** `id` is above every used record of the subject. */
  ghost predicate AboveUsed(inner: A.Inner, subject: A.Subject, id: A.Id) {
    forall i :: i in inner && inner[i].subject == subject && inner[i].state.Consumed? ==> i < id
  }

  /** A record is opened under an id above the used records of its own subject. */
  ghost predicate OrderedStep(cfg: Config, s: System, a: Action) {
    a.Advance? && a.req in s.pcs && s.pcs[a.req].Opening? ==>
      AboveUsed(s.store.inner, cfg.calls(a.req).subject, a.newId)
  }

  /** After the steps in `done`, those in `more` are all ordered. */
  ghost predicate OrderedFrom(cfg: Config, done: seq<Action>, more: seq<Action>)
    decreases |more|
  {
    more == [] ||
    (var front := more[..|more| - 1];
     OrderedFrom(cfg, done, front) && OrderedStep(cfg, Run(cfg, done + front), more[|more| - 1]))
  }

  ghost predicate OrderedRun(cfg: Config, actions: seq<Action>) {
    OrderedFrom(cfg, [], actions)
  }

  /** Used records are the first of their subjects. */
  ghost predicate UsedAreFirst(inner: A.Inner) {
    forall i :: i in inner && inner[i].state.Consumed? ==> A.IsFirst(inner, A.OfSubject(inner[i].subject), i)
  }

  /** Records stay, keep their subject, and none is used that was not. */
  ghost predicate Stays(before: A.Inner, after: A.Inner) {
    forall i :: i in before ==>
      && i in after && after[i].subject == before[i].subject
      && (after[i].state.Consumed? ==> before[i].state.Consumed?)
  }

  lemma OpeningKeepsFirst(before: A.Inner, after: A.Inner)
    requires UsedAreFirst(before) && Stays(before, after)
    requires forall i :: i in after && i !in before ==>
               !after[i].state.Consumed? && AboveUsed(before, after[i].subject, i)
    ensures UsedAreFirst(after)
  {
    forall i | i in after && after[i].state.Consumed?
      ensures A.IsFirst(after, A.OfSubject(after[i].subject), i)
    {
      forall j | j in after && A.OfSubject(after[i].subject).Matches(after[j])
        ensures i <= j
      {
        if j in before {
          assert A.OfSubject(before[i].subject).Matches(before[j]);
        }
      }
    }
  }

  /** Using the first record of a subject keeps the used ones first. */
  lemma UsingKeepsFirst(before: A.Inner, after: A.Inner, subject: A.Subject, id: A.Id)
    requires UsedAreFirst(before) && after.Keys == before.Keys
    requires forall i :: i in before ==> after[i].subject == before[i].subject
    requires forall i :: i in after && after[i].state.Consumed? ==> before[i].state.Consumed? || i == id
    requires A.IsFirst(before, A.OfSubject(subject), id)
    ensures UsedAreFirst(after)
  {
    forall i | i in after && after[i].state.Consumed?
      ensures A.IsFirst(after, A.OfSubject(after[i].subject), i)
    {
      assert A.IsFirst(before, A.OfSubject(before[i].subject), i);
      forall j | j in after && A.OfSubject(after[i].subject).Matches(after[j])
        ensures i <= j
      {
        assert A.OfSubject(before[i].subject).Matches(before[j]);
      }
    }
  }

  lemma UseFirst(cfg: Config, s: System, r: ReqId, now: nat)
    requires UsedAreFirst(s.store.inner)
    ensures UsedAreFirst(Use(cfg, s, r, now).store.inner)
  {
    var call := cfg.calls(r);
    ConsumeFirst(s.store, call.subject, call.requestId, now + Ttl(call), now);
  }

  lemma ConsumeFirst(s: A.Store, subject: A.Subject, requestId: nat, expiresAt: nat, now: nat)
    requires UsedAreFirst(s.inner)
    ensures UsedAreFirst(A.Consume(s, subject, requestId, expiresAt, now).0.inner)
  {
    A.ConsumeChanges(s, subject, requestId, expiresAt, now);
    var (after, v) := A.Consume(s, subject, requestId, expiresAt, now);
    if v.Authorized? {
      A.AuthorizesExactly(s, v.id, subject, requestId, expiresAt, now);
      UsingKeepsFirst(s.inner, after.inner, subject, v.id);
    } else {
      OpeningKeepsFirst(s.inner, after.inner);
    }
  }

  lemma OpenFirst(cfg: Config, s: System, r: ReqId, now: nat, id: A.Id)
    requires UsedAreFirst(s.store.inner) && AboveUsed(s.store.inner, cfg.calls(r).subject, id)
    ensures UsedAreFirst(Open(cfg, s, r, now, id).store.inner)
  {
    OpeningKeepsFirst(s.store.inner, Open(cfg, s, r, now, id).store.inner);
  }

  lemma StepFirst(cfg: Config, s: System, a: Action)
    requires UsedAreFirst(s.store.inner) && OrderedStep(cfg, s, a)
    ensures UsedAreFirst(Apply(cfg, s, a).store.inner)
  {
    match a {
      case Arrive(r) =>
      case Advance(r, ok, now, id) =>
        if r in s.pcs {
          if s.pcs[r].Using? {
            UseFirst(cfg, s, r, now);
          } else if s.pcs[r].Opening? {
            OpenFirst(cfg, s, r, now, id);
          } else {
            StoreUntouched(cfg, s, r, ok, now, id);
          }
        }
      case HumanDecides(id, d, now) =>
        OpeningKeepsFirst(s.store.inner, Apply(cfg, s, a).store.inner);
      case TimePasses(now) =>
        OpeningKeepsFirst(s.store.inner, Apply(cfg, s, a).store.inner);
    }
  }

  /** No two authorizations are of one subject. */
  ghost predicate SubjectsOnce(cfg: Config, t: seq<Event>) {
    forall i, j :: 0 <= i < j < |t| && Authorizes(t[i]) && Authorizes(t[j]) ==>
      cfg.calls(t[i].req).subject != cfg.calls(t[j].req).subject
  }

  lemma QuietOnce(cfg: Config, t: seq<Event>, ev: seq<Event>)
    requires SubjectsOnce(cfg, t) && forall e :: e in ev ==> !Authorizes(e)
    ensures SubjectsOnce(cfg, t + ev)
  {
    assert forall i :: |t| <= i < |t + ev| ==> (t + ev)[i] in ev;
  }

  /** What a subject used before is its first record, and that one is used up. */
  lemma UseOnce(cfg: Config, s: System, r: ReqId, now: nat)
    requires SubjectsOnce(cfg, s.trace) && UsedAreFirst(s.store.inner) && StoreMatches(cfg, s)
    ensures SubjectsOnce(cfg, s.trace + Use(cfg, s, r, now).events)
  {
    var call := cfg.calls(r);
    var v := A.Consume(s.store, call.subject, call.requestId, now + Ttl(call), now).1;
    if v.Authorized? {
      A.AuthorizesExactly(s.store, v.id, call.subject, call.requestId, now + Ttl(call), now);
      forall e | e in s.trace && Authorizes(e)
        ensures cfg.calls(e.req).subject != call.subject
      {
        assert s.store.inner[e.verdict.id].state.Consumed?;
      }
    } else {
      QuietOnce(cfg, s.trace, [Judged(r, v)]);
    }
  }

  lemma StepOnce(cfg: Config, s: System, a: Action)
    requires Inv(cfg, s) && UsedAreFirst(s.store.inner) && SubjectsOnce(cfg, s.trace)
    ensures SubjectsOnce(cfg, Apply(cfg, s, a).trace)
  {
    var s' := Apply(cfg, s, a);
    if a.Advance? && a.req in s.pcs && s.pcs[a.req].Using? {
      UseOnce(cfg, s, a.req, a.now);
    } else {
      if a.Advance? && a.req in s.pcs {
        MoveShaped(cfg, s, a.req, a.ok, a.now, a.newId);
      }
      var ev := s'.trace[|s.trace|..];
      assert s'.trace == s.trace + ev;
      QuietOnce(cfg, s.trace, ev);
    }
  }

  lemma {:induction false} RunOnce(cfg: Config, actions: seq<Action>)
    requires OrderedRun(cfg, actions)
    ensures UsedAreFirst(Run(cfg, actions).store.inner) && SubjectsOnce(cfg, Run(cfg, actions).trace)
  {
    if actions != [] {
      var front := actions[..|actions| - 1];
      assert [] + front == front;
      RunOnce(cfg, front);
      RunKeeps(cfg, front);
      StepFirst(cfg, Run(cfg, front), actions[|actions| - 1]);
      StepOnce(cfg, Run(cfg, front), actions[|actions| - 1]);
    }
  }

  /** The subject is authorized for two different requests. */
  ghost predicate UsedTwice(cfg: Config, t: seq<Event>, subject: A.Subject) {
    exists r, q, a, b :: r != q && Used(cfg, t, subject, r, a) && Used(cfg, t, subject, q, b)
  }

  ghost predicate Used(cfg: Config, t: seq<Event>, subject: A.Subject, r: ReqId, a: A.Id) {
    Judged(r, A.Authorized(a)) in t && cfg.calls(r).subject == subject
  }

  /** While every new record comes above the used records of its subject, no
      subject is authorized twice in a run, whoever asks and whenever. */
  lemma OneUsePerSubject(cfg: Config, actions: seq<Action>, subject: A.Subject)
    requires OrderedRun(cfg, actions)
    ensures !UsedTwice(cfg, Run(cfg, actions).trace, subject)
  {
    RunOnce(cfg, actions);
    var t := Run(cfg, actions).trace;
    forall r, q, a, b | Used(cfg, t, subject, r, a) && Used(cfg, t, subject, q, b)
      ensures r == q
    {
      var i :| 0 <= i < |t| && t[i] == Judged(r, A.Authorized(a));
      var j :| 0 <= j < |t| && t[j] == Judged(q, A.Authorized(b));
      assert Authorizes(t[i]) && Authorizes(t[j]);
      assert cfg.calls(t[i].req).subject == cfg.calls(t[j].req).subject;
    }
  }

  // ---- when a new record lets a subject be used again ----------------------

  /** The step of `r` opens a record: nothing of its subject is waiting, and the
      queue has room. */
  ghost predicate CanOpen(cfg: Config, s: System, r: ReqId, now: nat, id: A.Id) {
    && r in s.pcs && s.pcs[r].Opening? && id !in s.store.inner
    && (var inner, call := A.Expire(s.store.inner, now), cfg.calls(r);
        && A.First(inner, A.PendingOf(call.subject)).None?
        && A.CountPending(inner) < cfg.maxGlobal && A.CountPendingOf(inner, call.agent) < cfg.maxPerAgent)
  }

  /** `id` is the record a use of `subject` finds, live and in state `state`. */
  ghost predicate Live(inner: A.Inner, id: A.Id, subject: A.Subject, now: nat, state: A.ApprovalState) {
    A.IsFirst(inner, A.OfSubject(subject), id) && inner[id].state == state && now < inner[id].expiresAt
  }

  /** Steps that keep what happened and open nothing. */
  ghost predicate Extends(cfg: Config, done: seq<Action>, before: seq<Action>, after: seq<Action>) {
    && (forall e :: e in Run(cfg, done + before).trace ==> e in Run(cfg, done + after).trace)
    && (OrderedFrom(cfg, done, before) ==> OrderedFrom(cfg, done, after))
  }

  lemma ExtendsTwice(cfg: Config, done: seq<Action>, a: seq<Action>, b: seq<Action>, c: seq<Action>)
    requires Extends(cfg, done, a, b) && Extends(cfg, done, b, c)
    ensures Extends(cfg, done, a, c)
  {}

  lemma Follow(cfg: Config, done: seq<Action>, more: seq<Action>, a: Action) returns (next: seq<Action>)
    requires OrderedStep(cfg, Run(cfg, done + more), a)
    ensures next == more + [a] && Run(cfg, done + next) == Apply(cfg, Run(cfg, done + more), a)
    ensures Extends(cfg, done, more, next)
  {
    next := more + [a];
    assert next[..|more|] == more;
    assert done + next == done + more + [a];
    RunNext(cfg, done + more, a);
    TraceKept(cfg, Run(cfg, done + more), a);
  }

  lemma TraceKept(cfg: Config, s: System, a: Action)
    ensures forall e :: e in s.trace ==> e in Apply(cfg, s, a).trace
  {}

  /** The way of a call that needs approval to the store. */
  function TowardUse(pc: Pc): Pc {
    match pc
    case Received => Arrived
    case Arrived => Evaluating
    case Evaluating => Deciding
    case Deciding => Using
    case _ => pc
  }

  lemma ComesCloser(cfg: Config, done: seq<Action>, more: seq<Action>, q: ReqId) returns (next: seq<Action>)
    requires NeedsApproval(cfg, q) && Refusal(cfg.calls(q).ingress).None?
    requires var s := Run(cfg, done + more); q in s.pcs && TowardUse(s.pcs[q]) != s.pcs[q]
    ensures Extends(cfg, done, more, next)
    ensures var s, s' := Run(cfg, done + more), Run(cfg, done + next);
            s'.store == s.store && s'.pcs == s.pcs[q := TowardUse(s.pcs[q])]
  {
    next := Follow(cfg, done, more, Advance(q, true, 0, 0));
  }

  /** A new call that needs approval and is admitted comes as far as asking the store. */
  lemma EnterUsing(cfg: Config, done: seq<Action>, more: seq<Action>, q: ReqId) returns (next: seq<Action>)
    requires NeedsApproval(cfg, q) && Refusal(cfg.calls(q).ingress).None? && q !in Run(cfg, done + more).pcs
    ensures Extends(cfg, done, more, next)
    ensures var s, s' := Run(cfg, done + more), Run(cfg, done + next);
            s'.store == s.store && s'.pcs == s.pcs[q := Using]
  {
    var a := Follow(cfg, done, more, Arrive(q));
    var b := ComesCloser(cfg, done, a, q);
    ExtendsTwice(cfg, done, more, a, b);
    var c := ComesCloser(cfg, done, b, q);
    ExtendsTwice(cfg, done, more, b, c);
    var d := ComesCloser(cfg, done, c, q);
    ExtendsTwice(cfg, done, more, c, d);
    next := ComesCloser(cfg, done, d, q);
    ExtendsTwice(cfg, done, more, d, next);
    assert Run(cfg, done + next).pcs == Run(cfg, done + more).pcs[q := Using];
  }

  lemma HumanApproves(cfg: Config, done: seq<Action>, more: seq<Action>, id: A.Id, subject: A.Subject, now: nat)
      returns (next: seq<Action>)
    requires Live(Run(cfg, done + more).store.inner, id, subject, now, A.Pending)
    ensures Extends(cfg, done, more, next)
    ensures var s, s' := Run(cfg, done + more), Run(cfg, done + next);
            && Live(s'.store.inner, id, subject, now, A.Granted) && s'.pcs == s.pcs
            && s'.store.inner.Keys == s.store.inner.Keys
  {
    next := Follow(cfg, done, more, HumanDecides(id, A.Decision(true, subject), now));
    ApprovedStore(Run(cfg, done + more).store, id, subject, now);
  }

  lemma ApprovedStore(s: A.Store, id: A.Id, subject: A.Subject, now: nat)
    requires Live(s.inner, id, subject, now, A.Pending)
    ensures var s' := A.Decide(s, id, A.Decision(true, subject), now).0;
            Live(s'.inner, id, subject, now, A.Granted) && s'.inner.Keys == s.inner.Keys
  {
    var s' := A.Decide(s, id, A.Decision(true, subject), now).0;
    A.DecidesExactly(s, id, A.Decision(true, subject), now);
    assert forall i :: i in s.inner ==> s'.inner[i].subject == s.inner[i].subject;
    forall i | i in s'.inner && A.OfSubject(subject).Matches(s'.inner[i])
      ensures id <= i
    {
      assert A.OfSubject(subject).Matches(s.inner[i]);
    }
  }

  /** The subject's next call uses it. */
  lemma Uses(cfg: Config, done: seq<Action>, more: seq<Action>, id: A.Id, q: ReqId, now: nat)
      returns (next: seq<Action>)
    requires Live(Run(cfg, done + more).store.inner, id, cfg.calls(q).subject, now, A.Granted)
    requires NeedsApproval(cfg, q) && Ttl(cfg.calls(q)) > 0
    requires Refusal(cfg.calls(q).ingress).None? && q !in Run(cfg, done + more).pcs
    ensures Extends(cfg, done, more, next) && Judged(q, A.Authorized(id)) in Run(cfg, done + next).trace
    ensures var s, s' := Run(cfg, done + more), Run(cfg, done + next);
            && s'.pcs == s.pcs[q := Authorizing(id)] && s'.store.inner.Keys == s.store.inner.Keys
            && id in s'.store.inner && s'.store.inner[id].state.Consumed?
  {
    var call := cfg.calls(q);
    var entered := EnterUsing(cfg, done, more, q);
    A.AuthorizesExactly(Run(cfg, done + more).store, id, call.subject, call.requestId, now + Ttl(call), now);
    A.AuthorizedMeans(Run(cfg, done + more).store, call.subject, call.requestId, now + Ttl(call), now);
    A.ConsumeChanges(Run(cfg, done + more).store, call.subject, call.requestId, now + Ttl(call), now);
    next := Follow(cfg, done, entered, Advance(q, true, now, 0));
    assert Run(cfg, done + next).pcs == Run(cfg, done + more).pcs[q := Authorizing(id)];
    ExtendsTwice(cfg, done, more, entered, next);
  }

  lemma OpenedStore(cfg: Config, s: System, r: ReqId, now: nat, b: A.Id)
    requires CanOpen(cfg, s, r, now, b) && Ttl(cfg.calls(r)) > 0
    requires forall i :: i in s.store.inner && s.store.inner[i].subject == cfg.calls(r).subject ==> b < i
    ensures Live(Open(cfg, s, r, now, b).store.inner, b, cfg.calls(r).subject, now, A.Pending)
    ensures Open(cfg, s, r, now, b).store.inner.Keys == s.store.inner.Keys + {b}
    ensures Open(cfg, s, r, now, b).pc == Asking(b)
  {
    var after := Open(cfg, s, r, now, b).store.inner;
    forall i | i in after && A.OfSubject(cfg.calls(r).subject).Matches(after[i])
      ensures b <= i
    {
      if i != b {
        assert s.store.inner[i].subject == cfg.calls(r).subject;
      }
    }
  }

  /** A record opened below all those of its subject can be approved and used. */
  lemma LowestIsUsable(cfg: Config, actions: seq<Action>, r: ReqId, now: nat, b: A.Id, ok: bool, q: ReqId)
      returns (more: seq<Action>)
    requires CanOpen(cfg, Run(cfg, actions), r, now, b) && Ttl(cfg.calls(r)) > 0
    requires var s := Run(cfg, actions);
             && (forall i :: i in s.store.inner && s.store.inner[i].subject == cfg.calls(r).subject ==> b < i)
             && q !in s.pcs
    requires cfg.calls(q) == cfg.calls(r)
    ensures var done := actions + [Advance(r, ok, now, b)];
            && OrderedFrom(cfg, done, more)
            && Judged(q, A.Authorized(b)) in Run(cfg, done + more).trace
            && forall e :: e in Run(cfg, actions).trace ==> e in Run(cfg, done + more).trace
    ensures var s, s' := Run(cfg, actions), Run(cfg, actions + [Advance(r, ok, now, b)] + more);
            && s'.pcs == s.pcs[r := Asking(b)][q := Authorizing(b)] && s'.store.inner.Keys == s.store.inner.Keys + {b}
            && s'.store.inner[b].state.Consumed?
  {
    RunKeeps(cfg, actions);
    var done := actions + [Advance(r, ok, now, b)];
    RunNext(cfg, actions, Advance(r, ok, now, b));
    TraceKept(cfg, Run(cfg, actions), Advance(r, ok, now, b));
    OpenedStore(cfg, Run(cfg, actions), r, now, b);
    assert done + [] == done && q !in Run(cfg, done).pcs;
    var approved := HumanApproves(cfg, done, [], b, cfg.calls(r).subject, now);
    more := Uses(cfg, done, approved, b, q, now);
    ExtendsTwice(cfg, done, [], approved, more);
  }

  /** The subject can come to be authorized a second time, by steps in which every
      further record again comes above the used ones of its subject. */
  ghost predicate CanBeUsedTwice(cfg: Config, done: seq<Action>, subject: A.Subject) {
    exists more :: OrderedFrom(cfg, done, more) && UsedTwice(cfg, Run(cfg, done + more).trace, subject)
  }

  lemma {:induction false} OrderedJoins(cfg: Config, done: seq<Action>, more: seq<Action>)
    requires OrderedRun(cfg, done) && OrderedFrom(cfg, done, more)
    ensures OrderedRun(cfg, done + more)
    decreases |more|
  {
    if more == [] {
      assert done + more == done;
    } else {
      var front := more[..|more| - 1];
      OrderedJoins(cfg, done, front);
      assert (done + more)[..|done + more| - 1] == done + front;
      assert [] + (done + front) == done + front;
    }
  }

  /** Once a subject was used under `a`, its next record, opened under `b`, lets it
      be used again exactly when `b` comes below `a`. */
  lemma UsableAgainExactly(cfg: Config, actions: seq<Action>, p: ReqId, a: A.Id, r: ReqId, now: nat, b: A.Id,
                           ok: bool, q: ReqId)
    requires OrderedRun(cfg, actions) && CanOpen(cfg, Run(cfg, actions), r, now, b)
    requires Used(cfg, Run(cfg, actions).trace, cfg.calls(r).subject, p, a)
    requires Ttl(cfg.calls(r)) > 0 && q !in Run(cfg, actions).pcs && cfg.calls(q) == cfg.calls(r)
    ensures CanBeUsedTwice(cfg, actions + [Advance(r, ok, now, b)], cfg.calls(r).subject) <==> b < a
  {
    var s, done, subject := Run(cfg, actions), actions + [Advance(r, ok, now, b)], cfg.calls(r).subject;
    RunOnce(cfg, actions);
    RunKeeps(cfg, actions);
    assert Authorizes(Judged(p, A.Authorized(a)));
    assert A.IsFirst(s.store.inner, A.OfSubject(subject), a);
    if b < a {
      BelowFirst(s.store.inner, subject, a, b);
      var more := LowestIsUsable(cfg, actions, r, now, b, ok, q);
      UsedByBoth(cfg, actions, done + more, p, a, q, b, subject);
    } else {
      AboveFirst(s.store.inner, subject, a, b);
      assert done[..|actions|] == actions && [] + actions == actions;
      assert OrderedRun(cfg, done);
      forall more | OrderedFrom(cfg, done, more)
        ensures !UsedTwice(cfg, Run(cfg, done + more).trace, subject)
      {
        OrderedJoins(cfg, done, more);
        OneUsePerSubject(cfg, done + more, subject);
      }
    }
  }

  lemma BelowFirst(inner: A.Inner, subject: A.Subject, a: A.Id, b: A.Id)
    requires A.IsFirst(inner, A.OfSubject(subject), a) && b < a
    ensures forall i :: i in inner && inner[i].subject == subject ==> b < i
  {
    forall i | i in inner && inner[i].subject == subject
      ensures b < i
    {
      assert A.OfSubject(subject).Matches(inner[i]);
    }
  }

  lemma AboveFirst(inner: A.Inner, subject: A.Subject, a: A.Id, b: A.Id)
    requires UsedAreFirst(inner) && A.IsFirst(inner, A.OfSubject(subject), a) && a <= b && b !in inner
    ensures AboveUsed(inner, subject, b)
  {
    forall i | i in inner && inner[i].subject == subject && inner[i].state.Consumed?
      ensures i < b
    {
      assert A.IsFirst(inner, A.OfSubject(subject), i) && A.OfSubject(subject).Matches(inner[a]);
    }
  }

  /** The requests are different: `q` was not there when `p` was judged. */
  lemma UsedByBoth(cfg: Config, actions: seq<Action>, all: seq<Action>, p: ReqId, a: A.Id, q: ReqId, b: A.Id,
                   subject: A.Subject)
    requires Used(cfg, Run(cfg, actions).trace, subject, p, a) && q !in Run(cfg, actions).pcs
    requires forall e :: e in Run(cfg, actions).trace ==> e in Run(cfg, all).trace
    requires Used(cfg, Run(cfg, all).trace, subject, q, b)
    ensures UsedTwice(cfg, Run(cfg, all).trace, subject)
  {
    RunKeeps(cfg, actions);
    var e := Judged(p, A.Authorized(a));
    assert e.req in Run(cfg, actions).pcs;
    assert Used(cfg, Run(cfg, all).trace, subject, p, a);
  }

  // ---- identifiers out of order --------------------------------------------

  /** A first call finds the store without its subject or request, and is to open a record. */
  lemma AsksFirst(cfg: Config, actions: seq<Action>, r: ReqId) returns (more: seq<Action>)
    requires NeedsApproval(cfg, r) && Refusal(cfg.calls(r).ingress).None?
    requires r !in Run(cfg, actions).pcs && Run(cfg, actions).store == A.Store(map[], map[])
    ensures Run(cfg, more).store == A.Store(map[], map[]) && Run(cfg, more).pcs == Run(cfg, actions).pcs[r := Opening]
  {
    assert [] + actions == actions;
    var entered := EnterUsing(cfg, [], actions, r);
    assert [] + entered == entered;
    more := Next(cfg, entered, Advance(r, true, 0, 0));
    AskStep(cfg, Run(cfg, entered), r);
    SetTwice(Run(cfg, actions).pcs, r, Using, Opening);
  }

  lemma AskStep(cfg: Config, s: System, r: ReqId)
    requires r in s.pcs && s.pcs[r].Using? && s.store == A.Store(map[], map[])
    ensures var s' := Apply(cfg, s, Advance(r, true, 0, 0)); s'.store == s.store && s'.pcs == s.pcs[r := Opening]
  {
    FindsNothing(cfg, s, r);
  }

  lemma SetTwice(pcs: map<ReqId, Pc>, r: ReqId, first: Pc, second: Pc)
    ensures pcs[r := first][r := second] == pcs[r := second]
  {}

  lemma FindsNothing(cfg: Config, s: System, r: ReqId)
    requires s.store == A.Store(map[], map[])
    ensures Use(cfg, s, r, 0) == Move(Opening, [Judged(r, A.NotFound)], s.store)
  {
    var call := cfg.calls(r);
    A.NotFoundExactly(s.store, call.subject, call.requestId, Ttl(call), 0);
    assert A.Expire(map[], 0) == map[];
  }

  lemma BothAsk(cfg: Config) returns (actions: seq<Action>)
    requires NeedsApproval(cfg, 0) && NeedsApproval(cfg, 1)
    requires Refusal(cfg.calls(0).ingress).None? && Refusal(cfg.calls(1).ingress).None?
    ensures Run(cfg, actions).store == A.Store(map[], map[]) && Run(cfg, actions).pcs == map[0 := Opening, 1 := Opening]
  {
    actions := AsksFirst(cfg, [], 0);
    actions := AsksFirst(cfg, actions, 1);
  }

  /** A store in which everything is used has room for a record. */
  lemma AllUsedHasRoom(cfg: Config, s: System, r: ReqId, id: A.Id)
    requires r in s.pcs && s.pcs[r].Opening? && id !in s.store.inner && cfg.maxGlobal >= 1 && cfg.maxPerAgent >= 1
    requires forall i :: i in s.store.inner ==> s.store.inner[i].state.Consumed?
    ensures CanOpen(cfg, s, r, 0, id)
  {
    var inner := A.Expire(s.store.inner, 0);
    assert A.PendingIds(inner) == {} && A.PendingIdsOf(inner, cfg.calls(r).agent) == {};
  }

  /** With identifiers out of order one subject is authorized twice: two calls ask
      before either opens a record; the first opens 5, which is approved and used;
      the second then opens 3, which hides it, and is approved and used too. */
  lemma OutOfOrderUsesTwice(cfg: Config) returns (actions: seq<Action>)
    requires NeedsApproval(cfg, 0) && Ttl(cfg.calls(0)) > 0 && forall r :: cfg.calls(r) == cfg.calls(0)
    requires Refusal(cfg.calls(0).ingress).None? && cfg.maxGlobal >= 1 && cfg.maxPerAgent >= 1
    ensures Judged(2, A.Authorized(5)) in Run(cfg, actions).trace
    ensures Judged(3, A.Authorized(3)) in Run(cfg, actions).trace
  {
    var asked := BothAsk(cfg);
    AllUsedHasRoom(cfg, Run(cfg, asked), 0, 5);
    var more := LowestIsUsable(cfg, asked, 0, 0, 5, true, 2);
    var used := asked + [Advance(0, true, 0, 5)] + more;
    AllUsedHasRoom(cfg, Run(cfg, used), 1, 3);
    var again := LowestIsUsable(cfg, used, 1, 0, 3, true, 3);
    actions := used + [Advance(1, true, 0, 3)] + again;
  }
}
