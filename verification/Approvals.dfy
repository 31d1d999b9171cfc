/** The approval store of the agent gateway: the lifecycle of an approval, from
    the request through the human decision to its single use. Identifiers, subject
    hashes, request ids and agents are only compared, so they are naturals. */
module Approvals {
  import opened Wrappers
  import opened Numbers

  type Id = nat
  type Subject = nat

  datatype ApprovalState = Pending | Granted | Denied | Expired | Consumed

  datatype Decision = Decision(approved: bool, subject: Subject)

  datatype Record = Record(
    requestId: nat, subject: Subject, agent: nat, expiresAt: nat,
    state: ApprovalState, decision: Option<Decision>)

  datatype Verdict =
    | Authorized(id: Id)
    | StillPending(id: Id)
    | NotFound
    | WasDenied(id: Id)
    | HasExpired(id: Id)
    | AlreadyUsed(id: Id)
    | BindingMismatch(id: Id)

  type Inner = map<Id, Record>

  /** The live records and the subjects already consumed. */
  datatype Store = Store(inner: Inner, consumed: map<Subject, Id>)

  // ---- the operations as functions of the store ----------------------------

  function ExpireOne(r: Record, now: nat): Record {
    if (r.state.Pending? || r.state.Granted?) && now >= r.expiresAt then r.(state := Expired) else r
  }

  /** `expire_locked` */
  function Expire(inner: Inner, now: nat): (after: Inner)
    ensures after.Keys == inner.Keys
  {
    map id | id in inner :: ExpireOne(inner[id], now)
  }

  /** What the store's searches look for. */
  datatype Query = OfSubject(subject: Subject) | PendingOf(subject: Subject) | OfRequest(requestId: nat) {
    predicate Matches(r: Record) {
      match this
      case OfSubject(subject) => r.subject == subject
      case PendingOf(subject) => r.state.Pending? && r.subject == subject
      case OfRequest(requestId) => r.requestId == requestId
    }
  }

  /** `id` is the first record, in id order, that the query matches. */
  ghost predicate IsFirst(inner: Inner, q: Query, id: Id) {
    id in inner && q.Matches(inner[id]) && forall i :: i in inner && q.Matches(inner[i]) ==> id <= i
  }

  /** `find` */
  ghost function First(inner: Inner, q: Query): (first: Option<Id>)
    ensures first.Some? ==> IsFirst(inner, q, first.value)
    ensures first.None? ==> forall i :: i in inner ==> !q.Matches(inner[i])
  {
    if i :| i in inner && q.Matches(inner[i]) then
      FirstExists(inner, q, i);
      var id :| IsFirst(inner, q, id);
      Some(id)
    else None
  }

  lemma {:induction false} FirstExists(inner: Inner, q: Query, i: Id)
    requires i in inner && q.Matches(inner[i])
    ensures exists id :: IsFirst(inner, q, id)
    decreases i
  {
    if j :| j in inner && q.Matches(inner[j]) && j < i {
      FirstExists(inner, q, j);
    } else {
      assert IsFirst(inner, q, i);
    }
  }

  function PendingIds(inner: Inner): set<Id> {
    set id | id in inner && inner[id].state.Pending?
  }

  function PendingIdsOf(inner: Inner, agent: nat): set<Id> {
    set id | id in inner && inner[id].state.Pending? && inner[id].agent == agent
  }

  function CountPending(inner: Inner): nat {
    |PendingIds(inner)|
  }

  function CountPendingOf(inner: Inner, agent: nat): nat {
    |PendingIdsOf(inner, agent)|
  }

  /** A new request: a pending one of the same subject is returned instead, and a
      full queue refuses. */
  ghost function RequestBounded(s: Store, id: Id, req: Record, now: nat, maxGlobal: nat, maxPerAgent: nat)
      : (r: (Store, Option<Id>))
  {
    var inner := Expire(s.inner, now);
    match First(inner, PendingOf(req.subject))
    case Some(existing) => (s.(inner := inner), Some(existing))
    case None =>
      if CountPending(inner) >= maxGlobal || CountPendingOf(inner, req.agent) >= maxPerAgent then
        (s.(inner := inner), None)
      else
        (s.(inner := inner[id := req.(state := Pending, decision := None)]), Some(id))
  }

  /** The human decision: only on a pending request, and only about its own subject. */
  ghost function Decide(s: Store, id: Id, d: Decision, now: nat): (r: (Store, bool)) {
    var inner := Expire(s.inner, now);
    if id in inner && inner[id].state.Pending? && d.subject == inner[id].subject then
      (s.(inner := inner[id := inner[id].(state := if d.approved then Granted else Denied, decision := Some(d))]), true)
    else
      (s.(inner := inner), false)
  }

  /** The attempt to use an approval for the presented subject. */
  ghost function Consume(s: Store, subject: Subject, requestId: nat, expiresAt: nat, now: nat): (r: (Store, Verdict)) {
    var inner := Expire(s.inner, now);
    match First(inner, OfSubject(subject))
    case None =>
      if subject in s.consumed then (s.(inner := inner), AlreadyUsed(s.consumed[subject]))
      else (match First(inner, OfRequest(requestId))
            case Some(other) => (s.(inner := inner), BindingMismatch(other))
            case None => (s.(inner := inner), NotFound))
    case Some(id) =>
      match inner[id].state
      case Pending => (s.(inner := inner), StillPending(id))
      case Denied => (s.(inner := inner), WasDenied(id))
      case Expired => (s.(inner := inner), HasExpired(id))
      case Consumed => (s.(inner := inner), AlreadyUsed(id))
      case Granted =>
        if now < expiresAt then
          (Store(inner[id := inner[id].(state := Consumed)], s.consumed[subject := id]), Authorized(id))
        else
          (s.(inner := inner[id := inner[id].(state := Expired)]), HasExpired(id))
  }

  // ---- what the operations keep --------------------------------------------

  /** A granted or consumed record carries a human approval of its own subject. */
  ghost predicate Approved(r: Record) {
    r.state.Granted? || r.state.Consumed? ==> r.decision == Some(Decision(true, r.subject))
  }

  ghost predicate Sound(s: Store) {
    forall id :: id in s.inner ==> Approved(s.inner[id])
  }

  /** Records are never removed nor change subject, and a consumed one stays so. */
  ghost predicate Evolves(before: Store, after: Store) {
    forall id :: id in before.inner ==>
      && id in after.inner
      && after.inner[id].subject == before.inner[id].subject
      && (before.inner[id].state.Consumed? ==> after.inner[id].state.Consumed?)
  }

  lemma RequestBoundedKeeps(s: Store, id: Id, req: Record, now: nat, maxGlobal: nat, maxPerAgent: nat)
    requires Sound(s) && id !in s.inner
    ensures var (after, _) := RequestBounded(s, id, req, now, maxGlobal, maxPerAgent);
            && Sound(after) && Evolves(s, after)
            && (forall i :: i in after.inner && after.inner[i].state.Consumed? ==>
                  i in s.inner && s.inner[i].state.Consumed?)
            && (forall i :: i in after.inner && after.inner[i].state.Granted? ==>
                  i in s.inner && s.inner[i].state.Granted?)
  {}

  lemma DecideKeeps(s: Store, id: Id, d: Decision, now: nat)
    requires Sound(s)
    ensures var (after, accepted) := Decide(s, id, d, now);
            && Sound(after) && Evolves(s, after)
            && (forall i :: i in after.inner && after.inner[i].state.Consumed? ==>
                  i in s.inner && s.inner[i].state.Consumed?)
            && (forall i :: i in after.inner && after.inner[i].state.Granted? ==>
                  i in s.inner
                  && (s.inner[i].state.Granted? || (i == id && accepted && d == Decision(true, s.inner[i].subject))))
  {}

  /** Only a granted approval of exactly the presented subject, not yet expired,
      authorizes; doing so consumes it. */
  lemma AuthorizedMeans(s: Store, subject: Subject, requestId: nat, expiresAt: nat, now: nat)
    ensures var (after, v) := Consume(s, subject, requestId, expiresAt, now);
            v.Authorized? ==>
              && v.id in s.inner && s.inner[v.id].state.Granted? && s.inner[v.id].subject == subject
              && now < s.inner[v.id].expiresAt && now < expiresAt
              && v.id in after.inner && after.inner[v.id].state.Consumed?
  {}

  /** An attempt is authorized exactly when the first approval of its subject is
      granted and neither it nor the new authorization has expired. */
  lemma AuthorizesExactly(s: Store, id: Id, subject: Subject, requestId: nat, expiresAt: nat, now: nat)
    ensures Consume(s, subject, requestId, expiresAt, now).1 == Authorized(id) <==>
            && IsFirst(s.inner, OfSubject(subject), id) && s.inner[id].state.Granted?
            && now < s.inner[id].expiresAt && now < expiresAt
  {
    var inner := Expire(s.inner, now);
    assert forall i :: i in s.inner ==>
      (OfSubject(subject).Matches(inner[i]) <==> OfSubject(subject).Matches(s.inner[i]));
    if IsFirst(s.inner, OfSubject(subject), id) {
      assert IsFirst(inner, OfSubject(subject), id);
    }
  }

  /** An action is new to the store exactly when no record has its subject or its
      request, and its subject was never used. */
  lemma NotFoundExactly(s: Store, subject: Subject, requestId: nat, expiresAt: nat, now: nat)
    ensures Consume(s, subject, requestId, expiresAt, now).1 == NotFound <==>
            && subject !in s.consumed
            && forall i :: i in s.inner ==> s.inner[i].subject != subject && s.inner[i].requestId != requestId
  {
    var inner := Expire(s.inner, now);
    assert forall i :: i in s.inner ==>
      inner[i].subject == s.inner[i].subject && inner[i].requestId == s.inner[i].requestId;
    assert forall i :: i in inner ==> (OfSubject(subject).Matches(inner[i]) <==> s.inner[i].subject == subject);
    assert forall i :: i in inner ==> (OfRequest(requestId).Matches(inner[i]) <==> s.inner[i].requestId == requestId);
  }

  /** A record is as it was, unless it was waiting or granted and its time has come. */
  predicate OnlyExpired(before: Record, after: Record, now: nat) {
    if before.state in {Pending, Granted} && now >= before.expiresAt then after == before.(state := Expired)
    else after == before
  }

  /** The records but those in `changed` are as they were, or expired with time. */
  ghost predicate OthersExpire(before: Inner, after: Inner, changed: set<Id>, now: nat) {
    && before.Keys <= after.Keys <= before.Keys + changed
    && forall i :: i in before && i !in changed ==> OnlyExpired(before[i], after[i], now)
  }

  /** A decision is accepted exactly when it is about the subject of an approval
      still pending; it changes that record's state and decision and nothing else. */
  lemma DecidesExactly(s: Store, id: Id, d: Decision, now: nat)
    ensures Decide(s, id, d, now).1 <==>
            && id in s.inner && s.inner[id].state.Pending?
            && now < s.inner[id].expiresAt && d.subject == s.inner[id].subject
    ensures Decide(s, id, d, now).1 ==>
            Decide(s, id, d, now).0.inner[id] ==
              s.inner[id].(state := if d.approved then Granted else Denied, decision := Some(d))
    ensures var (after, accepted) := Decide(s, id, d, now);
            after.consumed == s.consumed && OthersExpire(s.inner, after.inner, if accepted then {id} else {}, now)
  {}

  /** `id` is the lowest identifier of the subject's records. */
  ghost predicate Leads(inner: Inner, subject: Subject, id: Id) {
    id in inner && inner[id].subject == subject && forall i :: i in inner && inner[i].subject == subject ==> id <= i
  }

  /** `id` is the lowest identifier of the logical request's records. */
  ghost predicate LeadsRequest(inner: Inner, requestId: nat, id: Id) {
    id in inner && inner[id].requestId == requestId &&
    forall i :: i in inner && inner[i].requestId == requestId ==> id <= i
  }

  ghost predicate Unknown(inner: Inner, subject: Subject) {
    forall i :: i in inner ==> inner[i].subject != subject
  }

  lemma FirstLeads(inner: Inner, subject: Subject, requestId: nat, now: nat)
    ensures forall id: Id :: First(Expire(inner, now), OfSubject(subject)) == Some(id) <==> Leads(inner, subject, id)
    ensures First(Expire(inner, now), OfSubject(subject)).None? <==> Unknown(inner, subject)
    ensures forall id: Id :: First(Expire(inner, now), OfRequest(requestId)) == Some(id) <==>
                           LeadsRequest(inner, requestId, id)
  {
    var after := Expire(inner, now);
    forall i | i in inner
      ensures OfSubject(subject).Matches(after[i]) <==> inner[i].subject == subject
      ensures OfRequest(requestId).Matches(after[i]) <==> inner[i].requestId == requestId
    {
    }
    SubjectLeads(inner, after, subject);
    RequestLeads(inner, after, requestId);
  }

  lemma SubjectLeads(inner: Inner, after: Inner, subject: Subject)
    requires after.Keys == inner.Keys
    requires forall i :: i in inner ==> (OfSubject(subject).Matches(after[i]) <==> inner[i].subject == subject)
    ensures forall id: Id :: First(after, OfSubject(subject)) == Some(id) <==> Leads(inner, subject, id)
    ensures First(after, OfSubject(subject)).None? <==> Unknown(inner, subject)
  {
    var first := First(after, OfSubject(subject));
    if first.Some? {
      assert IsFirst(after, OfSubject(subject), first.value);
    }
  }

  lemma RequestLeads(inner: Inner, after: Inner, requestId: nat)
    requires after.Keys == inner.Keys
    requires forall i :: i in inner ==> (OfRequest(requestId).Matches(after[i]) <==> inner[i].requestId == requestId)
    ensures forall id: Id :: First(after, OfRequest(requestId)) == Some(id) <==> LeadsRequest(inner, requestId, id)
  {
    var first := First(after, OfRequest(requestId));
    if first.Some? {
      assert IsFirst(after, OfRequest(requestId), first.value);
    }
  }

  /** Each answer of an attempt to use an approval that is not an authorization,
      from the store before it: the state of the first record of the subject
      decides, and without one the subjects used and then the logical request. */
  lemma VerdictsExactly(s: Store, id: Id, subject: Subject, requestId: nat, expiresAt: nat, now: nat)
    ensures var v := Consume(s, subject, requestId, expiresAt, now).1;
            && (v == StillPending(id) <==>
                  Leads(s.inner, subject, id) && s.inner[id].state.Pending? && now < s.inner[id].expiresAt)
            && (v == WasDenied(id) <==> Leads(s.inner, subject, id) && s.inner[id].state.Denied?)
            && (v == HasExpired(id) <==>
                  && Leads(s.inner, subject, id)
                  && (|| s.inner[id].state.Expired?
                      || (s.inner[id].state in {Pending, Granted} && now >= s.inner[id].expiresAt)
                      || (s.inner[id].state.Granted? && now >= expiresAt)))
            && (v == AlreadyUsed(id) <==>
                  || (Leads(s.inner, subject, id) && s.inner[id].state.Consumed?)
                  || (Unknown(s.inner, subject) && subject in s.consumed && s.consumed[subject] == id))
            && (v == BindingMismatch(id) <==>
                  Unknown(s.inner, subject) && subject !in s.consumed && LeadsRequest(s.inner, requestId, id))
  {
    FirstLeads(s.inner, subject, requestId, now);
  }

  /** What an attempt leaves: an authorization consumes its record and its subject,
      a granted record presented too late expires, and nothing else changes. */
  lemma ConsumeLeaves(s: Store, subject: Subject, requestId: nat, expiresAt: nat, now: nat)
    ensures var (after, v) := Consume(s, subject, requestId, expiresAt, now);
            && after.consumed == (if v.Authorized? then s.consumed[subject := v.id] else s.consumed)
            && after.inner.Keys == s.inner.Keys
            && OthersExpire(s.inner, after.inner, if v.Authorized? || v.HasExpired? then {v.id} else {}, now)
            && (v.Authorized? ==> v.id in s.inner && after.inner[v.id] == s.inner[v.id].(state := Consumed))
            && (v.HasExpired? ==> v.id in s.inner && after.inner[v.id] == s.inner[v.id].(state := Expired))
  {
    FirstLeads(s.inner, subject, requestId, now);
  }

  /** Record `id` waits for a decision on the subject. */
  predicate Waits(inner: Inner, id: Id, subject: Subject, now: nat) {
    && id in inner && inner[id].state.Pending? && now < inner[id].expiresAt
    && inner[id].subject == subject
  }

  /** A request is refused exactly when its subject is not already waiting and a
      ceiling is reached; otherwise its subject is waiting under the id returned. */
  lemma AdmitsExactly(s: Store, id: Id, req: Record, now: nat, maxGlobal: nat, maxPerAgent: nat)
    ensures var (after, admitted) := RequestBounded(s, id, req, now, maxGlobal, maxPerAgent);
            var waiting := set i | i in s.inner && s.inner[i].state.Pending? && now < s.inner[i].expiresAt;
            var own := set i | i in waiting && s.inner[i].agent == req.agent;
            && (admitted.None? <==>
                  && (forall i :: i in waiting ==> s.inner[i].subject != req.subject)
                  && (|waiting| >= maxGlobal || |own| >= maxPerAgent))
            && (admitted.Some? ==>
                  && admitted.value in after.inner && after.inner[admitted.value].state.Pending?
                  && after.inner[admitted.value].subject == req.subject
                  && (admitted.value == id || admitted.value in waiting))
  {
    var inner := Expire(s.inner, now);
    var waiting := set i | i in s.inner && s.inner[i].state.Pending? && now < s.inner[i].expiresAt;
    assert waiting == PendingIds(inner);
    assert (set i | i in waiting && s.inner[i].agent == req.agent) == PendingIdsOf(inner, req.agent);
    assert forall i :: i in inner ==>
      (PendingOf(req.subject).Matches(inner[i]) <==> i in waiting && s.inner[i].subject == req.subject);
  }

  lemma FirstWaits(inner: Inner, subject: Subject, now: nat)
    ensures var waiting := First(Expire(inner, now), PendingOf(subject));
            && (waiting.None? <==> forall i :: i in inner ==> !Waits(inner, i, subject, now))
            && (waiting.Some? ==>
                  && Waits(inner, waiting.value, subject, now)
                  && forall i :: i in inner && Waits(inner, i, subject, now) ==> waiting.value <= i)
  {
    var after := Expire(inner, now);
    assert forall i :: i in inner ==> (PendingOf(subject).Matches(after[i]) <==> Waits(inner, i, subject, now));
    var waiting := First(after, PendingOf(subject));
    if waiting.Some? {
      assert IsFirst(after, PendingOf(subject), waiting.value);
    }
  }

  /** What a request leaves: a new record is the request itself, pending and
      undecided; a waiting one is the first of the subject; nothing else changes. */
  lemma RequestLeaves(s: Store, id: Id, req: Record, now: nat, maxGlobal: nat, maxPerAgent: nat)
    ensures var (after, admitted) := RequestBounded(s, id, req, now, maxGlobal, maxPerAgent);
            var isNew := admitted.Some? && !Waits(s.inner, admitted.value, req.subject, now);
            && after.consumed == s.consumed
            && OthersExpire(s.inner, after.inner, if isNew then {id} else {}, now)
            && (isNew ==>
                  && admitted == Some(id) && id in after.inner
                  && after.inner[id] == Record(req.requestId, req.subject, req.agent, req.expiresAt, Pending, None))
            && (admitted.Some? && !isNew ==>
                  forall i :: i in s.inner && Waits(s.inner, i, req.subject, now) ==> admitted.value <= i)
  {
    FirstWaits(s.inner, req.subject, now);
    if First(Expire(s.inner, now), PendingOf(req.subject)).None? {
      assert !Waits(s.inner, id, req.subject, now);
    }
  }

  /** Using an approval changes the state of that record alone; the rest only expire. */
  lemma ConsumeChanges(s: Store, subject: Subject, requestId: nat, expiresAt: nat, now: nat)
    ensures var (after, v) := Consume(s, subject, requestId, expiresAt, now);
            && after.inner.Keys == s.inner.Keys
            && forall i :: i in s.inner ==>
                 || after.inner[i] == s.inner[i]
                 || (after.inner[i] == s.inner[i].(state := Expired) && !s.inner[i].state.Consumed?)
                 || (v == Authorized(i) && s.inner[i].state.Granted?
                     && after.inner[i] == s.inner[i].(state := Consumed))
  {}

  /** What an attempt to use an approval does to the store, in one place. */
  ghost predicate UsesUp(before: Store, after: Store, subject: Subject, v: Verdict) {
    && Sound(after) && Evolves(before, after)
    && (forall i :: i in after.inner && after.inner[i].state.Granted? ==>
          i in before.inner && before.inner[i].state.Granted?)
    && (forall i :: i in after.inner && after.inner[i].state.Consumed? ==>
          i in before.inner && (before.inner[i].state.Consumed? || v == Authorized(i)))
    && (v.Authorized? ==>
          && v.id in before.inner && before.inner[v.id].state.Granted? && before.inner[v.id].subject == subject
          && v.id in after.inner && after.inner[v.id].state.Consumed?)
  }

  lemma ConsumeKeeps(s: Store, subject: Subject, requestId: nat, expiresAt: nat, now: nat)
    requires Sound(s)
    ensures var (after, v) := Consume(s, subject, requestId, expiresAt, now); UsesUp(s, after, subject, v)
  {
    ConsumeChanges(s, subject, requestId, expiresAt, now);
    AuthorizedMeans(s, subject, requestId, expiresAt, now);
    var (after, v) := Consume(s, subject, requestId, expiresAt, now);
    forall i | i in after.inner
      ensures Approved(after.inner[i])
    {
      assert Approved(s.inner[i]);
    }
  }

  /** What can be asked of the store. */
  datatype Op =
    | Request(id: Id, req: Record, maxGlobal: nat, maxPerAgent: nat)
    | DecideOn(id: Id, d: Decision)
    | Use(subject: Subject, requestId: nat, expiresAt: nat)
    | LookAtPending

  /** One operation at a time; a new record never takes an identifier in use. */
  ghost function Step(s: Store, op: Op, now: nat): Store {
    match op
    case Request(id, req, maxGlobal, maxPerAgent) =>
      if id in s.inner then s else RequestBounded(s, id, req, now, maxGlobal, maxPerAgent).0
    case DecideOn(id, d) => Decide(s, id, d, now).0
    case Use(subject, requestId, expiresAt) => Consume(s, subject, requestId, expiresAt, now).0
    case LookAtPending => s.(inner := Expire(s.inner, now))
  }

  /** The store after operations at any times, in any order. */
  ghost function AfterOps(s: Store, ops: seq<(Op, nat)>): Store {
    if ops == [] then s else Step(AfterOps(s, ops[..|ops| - 1]), ops[|ops| - 1].0, ops[|ops| - 1].1)
  }

  /** Operation `k` was a use, and it was authorized under `id`. */
  ghost predicate AuthorizedAt(s: Store, ops: seq<(Op, nat)>, k: nat, id: Id)
    requires k < |ops|
  {
    ops[k].0.Use? &&
    (var (use, now) := ops[k];
     Consume(AfterOps(s, ops[..k]), use.subject, use.requestId, use.expiresAt, now).1 == Authorized(id))
  }

  ghost predicate UsedUp(s: Store, id: Id) {
    id in s.inner && s.inner[id].state.Consumed?
  }

  lemma UsedUpStays(s: Store, op: Op, now: nat, id: Id)
    requires UsedUp(s, id)
    ensures UsedUp(Step(s, op, now), id)
  {
    if op.Use? {
      ConsumeChanges(s, op.subject, op.requestId, op.expiresAt, now);
    }
  }

  lemma OneMoreOp(s: Store, ops: seq<(Op, nat)>, j: nat)
    requires j < |ops|
    ensures AfterOps(s, ops[..j + 1]) == Step(AfterOps(s, ops[..j]), ops[j].0, ops[j].1)
  {
    assert ops[..j + 1][..j] == ops[..j];
  }

  lemma {:induction false} UsedUpAfter(s: Store, ops: seq<(Op, nat)>, i: nat, j: nat, id: Id)
    requires i <= j <= |ops| && UsedUp(AfterOps(s, ops[..i]), id)
    ensures UsedUp(AfterOps(s, ops[..j]), id)
  {
    if i < j {
      UsedUpAfter(s, ops, i, j - 1, id);
      UsedUpStays(AfterOps(s, ops[..j - 1]), ops[j - 1].0, ops[j - 1].1, id);
      OneMoreOp(s, ops, j - 1);
    }
  }

  lemma UseMeans(s: Store, ops: seq<(Op, nat)>, k: nat, id: Id)
    requires k < |ops| && AuthorizedAt(s, ops, k, id)
    ensures !UsedUp(AfterOps(s, ops[..k]), id) && UsedUp(AfterOps(s, ops[..k + 1]), id)
  {
    var (use, now) := ops[k];
    AuthorizedMeans(AfterOps(s, ops[..k]), use.subject, use.requestId, use.expiresAt, now);
    OneMoreOp(s, ops, k);
  }

  /** Over any sequence of operations, by whomever and whenever, an approval is
      used at most once. */
  lemma UsedAtMostOnce(s: Store, ops: seq<(Op, nat)>, i: nat, j: nat, id: Id)
    requires i < |ops| && j < |ops| && AuthorizedAt(s, ops, i, id) && AuthorizedAt(s, ops, j, id)
    ensures i == j
  {
    UseMeans(s, ops, i, id);
    UseMeans(s, ops, j, id);
    if i < j {
      UsedUpAfter(s, ops, i + 1, j, id);
    } else if j < i {
      UsedUpAfter(s, ops, j + 1, i, id);
    }
  }

  // ---- the queue of pending approvals --------------------------------------

  /** Neither ceiling is passed, and no subject is waiting twice. */
  ghost predicate WithinCapacity(inner: Inner, maxGlobal: nat, maxPerAgent: nat) {
    && CountPending(inner) <= maxGlobal
    && (forall agent :: CountPendingOf(inner, agent) <= maxPerAgent)
    && (forall i, j :: i in PendingIds(inner) && j in PendingIds(inner) ==>
          (inner[i].subject == inner[j].subject ==> i == j))
  }

  /** Whatever is pending was pending before, for the same subject and agent. */
  ghost predicate NoNewPending(before: Inner, after: Inner) {
    forall i :: i in after && after[i].state.Pending? ==> i in before && after[i] == before[i]
  }

  lemma FewerPendingFit(before: Inner, after: Inner, maxGlobal: nat, maxPerAgent: nat)
    requires WithinCapacity(before, maxGlobal, maxPerAgent) && NoNewPending(before, after)
    ensures WithinCapacity(after, maxGlobal, maxPerAgent)
  {
    SubsetSize(PendingIds(after), PendingIds(before));
    forall agent
      ensures CountPendingOf(after, agent) <= maxPerAgent
    {
      SubsetSize(PendingIdsOf(after, agent), PendingIdsOf(before, agent));
      assert CountPendingOf(before, agent) <= maxPerAgent;
    }
  }

  /** One more pending record counts once, for its own agent. */
  lemma AdmittedCounts(inner: Inner, id: Id, req: Record, agent: nat)
    requires id !in inner && req.state.Pending?
    ensures CountPending(inner[id := req]) == CountPending(inner) + 1
    ensures CountPendingOf(inner[id := req], agent) ==
            CountPendingOf(inner, agent) + if agent == req.agent then 1 else 0
  {
    var after := inner[id := req];
    assert PendingIds(after) == PendingIds(inner) + {id};
    if agent == req.agent {
      assert PendingIdsOf(after, agent) == PendingIdsOf(inner, agent) + {id};
    } else {
      assert PendingIdsOf(after, agent) == PendingIdsOf(inner, agent);
    }
  }

  lemma AdmittedFits(inner: Inner, id: Id, req: Record, maxGlobal: nat, maxPerAgent: nat)
    requires WithinCapacity(inner, maxGlobal, maxPerAgent) && id !in inner && req.state.Pending?
    requires CountPending(inner) < maxGlobal && CountPendingOf(inner, req.agent) < maxPerAgent
    requires forall i :: i in inner ==> !PendingOf(req.subject).Matches(inner[i])
    ensures WithinCapacity(inner[id := req], maxGlobal, maxPerAgent)
  {
    var after := inner[id := req];
    forall agent
      ensures CountPendingOf(after, agent) <= maxPerAgent
    {
      AdmittedCounts(inner, id, req, agent);
      assert CountPendingOf(inner, agent) <= maxPerAgent;
    }
    AdmittedCounts(inner, id, req, 0);
    forall i | i in PendingIds(inner)
      ensures inner[i].subject != req.subject
    {
      assert !PendingOf(req.subject).Matches(inner[i]);
    }
  }

  /** A request, admitted, merged with a waiting one or refused, never takes the
      queue past a ceiling nor makes a subject wait twice. */
  lemma RequestStaysWithin(s: Store, id: Id, req: Record, now: nat, maxGlobal: nat, maxPerAgent: nat)
    requires WithinCapacity(s.inner, maxGlobal, maxPerAgent) && id !in s.inner
    ensures WithinCapacity(RequestBounded(s, id, req, now, maxGlobal, maxPerAgent).0.inner, maxGlobal, maxPerAgent)
  {
    var inner := Expire(s.inner, now);
    FewerPendingFit(s.inner, inner, maxGlobal, maxPerAgent);
    if First(inner, PendingOf(req.subject)).None? && CountPending(inner) < maxGlobal &&
      CountPendingOf(inner, req.agent) < maxPerAgent {
      AdmittedFits(inner, id, req.(state := Pending, decision := None), maxGlobal, maxPerAgent);
    }
  }

  /** Deciding and using only ever take records off the queue. */
  lemma DecideStaysWithin(s: Store, id: Id, d: Decision, now: nat, maxGlobal: nat, maxPerAgent: nat)
    requires WithinCapacity(s.inner, maxGlobal, maxPerAgent)
    ensures WithinCapacity(Decide(s, id, d, now).0.inner, maxGlobal, maxPerAgent)
  {
    FewerPendingFit(s.inner, Decide(s, id, d, now).0.inner, maxGlobal, maxPerAgent);
  }

  lemma ConsumeStaysWithin(s: Store, subject: Subject, requestId: nat, expiresAt: nat, now: nat, maxGlobal: nat,
                           maxPerAgent: nat)
    requires WithinCapacity(s.inner, maxGlobal, maxPerAgent)
    ensures WithinCapacity(Consume(s, subject, requestId, expiresAt, now).0.inner, maxGlobal, maxPerAgent)
  {
    ConsumeChanges(s, subject, requestId, expiresAt, now);
    FewerPendingFit(s.inner, Consume(s, subject, requestId, expiresAt, now).0.inner, maxGlobal, maxPerAgent);
  }

  // ---- the store, updated in place -----------------------------------------

  class ApprovalStore {
    var inner: Inner
    var consumedSubjects: map<Subject, Id>

    ghost function Value(): Store
      reads this
    {
      Store(inner, consumedSubjects)
    }

    constructor ()
      ensures Value() == Store(map[], map[])
    {
      inner, consumedSubjects := map[], map[];
    }

    /** Expire every pending or granted record whose time has come. */
    method ExpireLocked(now: nat)
      modifies this`inner
      ensures inner == Expire(old(inner), now)
    {
      var left := inner.Keys;
      while left != {}
        invariant left <= old(inner).Keys
        invariant inner == map id | id in old(inner) ::
                  if id in left then old(inner)[id] else ExpireOne(old(inner)[id], now)
        decreases |left|
      {
        var id :| id in left;
        if (inner[id].state.Pending? || inner[id].state.Granted?) && now >= inner[id].expiresAt {
          inner := inner[id := inner[id].(state := Expired)];
        }
        left := left - {id};
      }
    }

    /** The first record in id order that the query matches. */
    method Find(q: Query) returns (first: Option<Id>)
      ensures first == First(inner, q)
    {
      if exists i :: i in inner && q.Matches(inner[i]) {
        ghost var i :| i in inner && q.Matches(inner[i]);
        FirstExists(inner, q, i);
        var id :| id in inner && q.Matches(inner[id]) && forall j :: j in inner && q.Matches(inner[j]) ==> id <= j;
        assert IsFirst(inner, q, id);
        return Some(id);
      }
      return None;
    }

    /** How many records are pending, in all and for one agent. */
    method Pendentes(agent: nat) returns (global: nat, ofAgent: nat)
      ensures global == CountPending(inner) && ofAgent == CountPendingOf(inner, agent)
    {
      return |PendingIds(inner)|, |PendingIdsOf(inner, agent)|;
    }

    method Request(id: Id, req: Record, now: nat, maxGlobal: nat, maxPerAgent: nat) returns (admitted: Option<Id>)
      modifies this
      ensures (Value(), admitted) == RequestBounded(old(Value()), id, req, now, maxGlobal, maxPerAgent)
    {
      ExpireLocked(now);
      var existing := Find(PendingOf(req.subject));
      if existing.Some? {
        return existing;
      }
      var global, ofAgent := Pendentes(req.agent);
      if global >= maxGlobal || ofAgent >= maxPerAgent {
        return None;
      }
      inner := inner[id := req.(state := Pending, decision := None)];
      return Some(id);
    }

    method DecideOn(id: Id, d: Decision, now: nat) returns (accepted: bool)
      modifies this
      ensures (Value(), accepted) == Decide(old(Value()), id, d, now)
    {
      ExpireLocked(now);
      if id !in inner || !inner[id].state.Pending? || d.subject != inner[id].subject {
        return false;
      }
      inner := inner[id := inner[id].(state := if d.approved then Granted else Denied, decision := Some(d))];
      return true;
    }

    method Use(subject: Subject, requestId: nat, expiresAt: nat, now: nat) returns (v: Verdict)
      modifies this
      ensures (Value(), v) == Consume(old(Value()), subject, requestId, expiresAt, now)
    {
      ExpireLocked(now);
      var found := Find(OfSubject(subject));
      if found.None? {
        if subject in consumedSubjects {
          return AlreadyUsed(consumedSubjects[subject]);
        }
        var other := Find(OfRequest(requestId));
        return if other.Some? then BindingMismatch(other.value) else NotFound;
      }
      var id := found.value;
      match inner[id].state {
        case Pending => v := StillPending(id);
        case Denied => v := WasDenied(id);
        case Expired => v := HasExpired(id);
        case Consumed => v := AlreadyUsed(id);
        case Granted =>
          if now < expiresAt {
            inner := inner[id := inner[id].(state := Consumed)];
            consumedSubjects := consumedSubjects[subject := id];
            v := Authorized(id);
          } else {
            inner := inner[id := inner[id].(state := Expired)];
            v := HasExpired(id);
          }
      }
    }
  }
}
