/** The tool-call path of the policy gateway as atomic steps of concurrent
    requests over one approval store and one trace of what happened. Every write
    of evidence, every use of the store and the forwarding itself is one step;
    steps of different requests, human decisions and clock readings interleave in
    any way. */
module Gateways {
  import opened Wrappers
  import A = Approvals
  import opened Admissions
  import opened Modes

  type ReqId = nat

  datatype PolicyDecision = Allow | Deny | RequireApproval(ttl: nat) | RateLimit | Redact | SandboxHint

  /** What a tool call brings: how it comes in, what policy says of it, the subject
      its authorization binds, its logical request id, and whether its JSON-RPC id
      is present and not blank. */
  datatype Call = Call(ingress: Ingress, decision: PolicyDecision, subject: A.Subject, requestId: nat, agent: nat,
                       hasId: bool)

  datatype Kind =
    | ToolRequested | PolicyEvaluated | ToolDenied | ToolAuthorized(approval: A.Id)
    | HumanApprovalRequested(approval: A.Id) | ToolInvocationStarted | ToolInvocationFinished | ErrorObserved

  datatype Event =
    | Recorded(req: ReqId, kind: Kind, ok: bool)      // a write of evidence and whether it was accepted
    | Judged(req: ReqId, verdict: A.Verdict)          // the store's answer to an attempt to use an approval
    | Decided(id: A.Id, d: A.Decision)                // a human decision the store accepted
    | Forwarded(req: ReqId)                           // the call reaches the upstream
    | Unreached(req: ReqId)                           // it could not be sent: no upstream, or none that answers
    | Refused(req: ReqId, status: nat)                // the caller gets an error instead

  /** Where a request stands in the code. */
  datatype Pc =
    | Received                 // before the checks at the door
    | Arrived                  // before writing ToolRequested
    | Evaluating               // before writing PolicyEvaluated
    | Deciding                 // before branching on the decision
    | Using                    // before `approvals.consume`
    | Authorizing(id: A.Id)    // before writing ToolAuthorized
    | Waiting(id: A.Id)        // before looking the pending approval up
    | Opening                  // before `request_bounded`
    | Asking(id: A.Id)         // before writing HumanApprovalRequested
    | Overflowing              // before writing ToolDenied for a full queue
    | Denying                  // before writing ToolDenied for a refusal
    | Starting                 // before writing ToolInvocationStarted
    | Sending                  // before forwarding
    | Closing                  // before writing the outcome
    | Failing                  // before writing ErrorObserved
    | Answered                 // refused
    | Delivered                // forwarded and closed

  datatype Config = Config(mode: Mode, maxGlobal: nat, maxPerAgent: nat, calls: ReqId -> Call)

  datatype System = System(pcs: map<ReqId, Pc>, store: A.Store, trace: seq<Event>)

  /** A step: what moves, and what the environment decides for it. */
  datatype Action =
    | Arrive(req: ReqId)
    | Advance(req: ReqId, ok: bool, now: nat, newId: A.Id)
    | HumanDecides(id: A.Id, d: A.Decision, now: nat)
    | TimePasses(now: nat)     // any reader of the store that expires what is due

  const EMPTY: System := System(map[], A.Store(map[], map[]), [])

  /** What one step of a request does: its new position, the events it adds, the store it leaves. */
  datatype Move = Move(pc: Pc, events: seq<Event>, store: A.Store)

  /** `append`: recorded or a duplicate counts as accepted; a conflict or a failed write does not. */
  function Write(s: System, r: ReqId, kind: Kind, ok: bool, next: Pc): Move {
    Move(next, [Recorded(r, kind, ok)], s.store)
  }

  function Refuse(s: System, r: ReqId, status: nat): Move {
    Move(Answered, [Refused(r, status)], s.store)
  }

  /** Write evidence, then refuse. */
  function WriteAndRefuse(s: System, r: ReqId, kind: Kind, ok: bool, status: nat): Move {
    Move(Answered, [Recorded(r, kind, ok), Refused(r, status)], s.store)
  }

  function Jump(s: System, next: Pc): Move {
    Move(next, [], s.store)
  }

  /** The branch on the policy decision. */
  function Decide(cfg: Config, s: System, r: ReqId): Move {
    var enforced := cfg.mode.Enforce?;
    if cfg.mode.Observe? then Jump(s, Starting) else
    match cfg.calls(r).decision
    case Deny => if enforced then Jump(s, Denying) else Jump(s, Starting)
    case RateLimit => if enforced then Refuse(s, r, 429) else Jump(s, Starting)
    case RequireApproval(_) => if cfg.calls(r).hasId then Jump(s, Using) else Refuse(s, r, 400)
    case Allow => Jump(s, Starting)
    case Redact => Jump(s, Starting)
    case SandboxHint => Jump(s, Starting)
  }

  /** Where each verdict of the store leads. */
  function AfterVerdict(mode: Mode, v: A.Verdict): Pc {
    match v
    case Authorized(id) => Authorizing(id)
    case StillPending(id) => if mode.Enforce? then Waiting(id) else Starting
    case NotFound => Opening
    case _ => if mode.Enforce? then Denying else Starting
  }

  function Ttl(call: Call): nat {
    if call.decision.RequireApproval? then call.decision.ttl else 0
  }

  /** `approvals.consume` with an authorization issued and expiring from `now`. */
  ghost function Use(cfg: Config, s: System, r: ReqId, now: nat): Move {
    var call := cfg.calls(r);
    var (store, v) := A.Consume(s.store, call.subject, call.requestId, now + Ttl(call), now);
    Move(AfterVerdict(cfg.mode, v), [Judged(r, v)], store)
  }

  /** `approvals.request_bounded`; identifiers are never reused. */
  ghost function Open(cfg: Config, s: System, r: ReqId, now: nat, id: A.Id): Move {
    var call := cfg.calls(r);
    var req := A.Record(call.requestId, call.subject, call.agent, now + Ttl(call), A.Pending, None);
    if id in s.store.inner then Jump(s, Opening) else
    var (store, admitted) := A.RequestBounded(s.store, id, req, now, cfg.maxGlobal, cfg.maxPerAgent);
    Move(if admitted.Some? then Asking(admitted.value) else Overflowing, [], store)
  }

  /** One step of request `r`, following the code branch by branch. */
  ghost function Proceed(cfg: Config, s: System, r: ReqId, ok: bool, now: nat, id: A.Id): Move
    requires r in s.pcs
  {
    var enforced := cfg.mode.Enforce?;
    match s.pcs[r]
    case Received =>
      (match Refusal(cfg.calls(r).ingress)
       case Some(status) => Refuse(s, r, status)
       case None => Jump(s, Arrived))
    case Arrived =>
      if !ok && enforced then WriteAndRefuse(s, r, ToolRequested, ok, 500)
        else Write(s, r, ToolRequested, ok, Evaluating)
    case Evaluating =>
      if cfg.mode.Observe? then Jump(s, Deciding) else Write(s, r, PolicyEvaluated, ok, Deciding)
    case Deciding => Decide(cfg, s, r)
    case Using => Use(cfg, s, r, now)
    case Authorizing(a) =>
      if !ok && enforced then WriteAndRefuse(s, r, ToolAuthorized(a), ok, 500)
        else Write(s, r, ToolAuthorized(a), ok, Starting)
    case Waiting(a) => Refuse(s, r, if a in s.store.inner then 202 else 500)
    case Opening => Open(cfg, s, r, now, id)
    case Asking(a) =>
      if enforced then WriteAndRefuse(s, r, HumanApprovalRequested(a), ok, 202)
      else Write(s, r, HumanApprovalRequested(a), ok, Starting)
    case Overflowing =>
      if enforced then WriteAndRefuse(s, r, ToolDenied, ok, 429) else Write(s, r, ToolDenied, ok, Starting)
    case Denying => WriteAndRefuse(s, r, ToolDenied, ok, 403)
    case Starting => Write(s, r, ToolInvocationStarted, ok, Sending)
    case Sending => if ok then Move(Closing, [Forwarded(r)], s.store) else Move(Failing, [Unreached(r)], s.store)
    case Closing => Write(s, r, ToolInvocationFinished, ok, Delivered)
    case Failing => WriteAndRefuse(s, r, ErrorObserved, ok, 502)
    case Answered => Jump(s, Answered)
    case Delivered => Jump(s, Delivered)
  }

  /** The system after a move of `r`. */
  function After(s: System, r: ReqId, m: Move): System {
    System(s.pcs[r := m.pc], m.store, s.trace + m.events)
  }

  ghost function Apply(cfg: Config, s: System, a: Action): System {
    match a
    case Arrive(r) => if r in s.pcs then s else s.(pcs := s.pcs[r := Received])
    case Advance(r, ok, now, id) => if r in s.pcs then After(s, r, Proceed(cfg, s, r, ok, now, id)) else s
    case HumanDecides(id, d, now) =>
      var (store, accepted) := A.Decide(s.store, id, d, now);
      s.(store := store, trace := if accepted then s.trace + [Decided(id, d)] else s.trace)
    case TimePasses(now) => s.(store := s.store.(inner := A.Expire(s.store.inner, now)))
  }

  /** The state after any sequence of steps; a step that cannot happen changes nothing. */
  ghost function Run(cfg: Config, actions: seq<Action>): System {
    if actions == [] then EMPTY else Apply(cfg, Run(cfg, actions[..|actions| - 1]), actions[|actions| - 1])
  }

  // ---- what the trace must show --------------------------------------------

  /** `a` happened, and `b` after it. */
  ghost predicate Then(t: seq<Event>, a: Event, b: Event) {
    exists i, j :: 0 <= i < j < |t| && t[i] == a && t[j] == b
  }

  predicate NonBlocking(d: PolicyDecision) {
    d.Allow? || d.Redact? || d.SandboxHint?
  }

  /** The approval `id` was granted by a human for exactly this subject, then used
      by this request, and the use was recorded. */
  ghost predicate ApprovedBy(t: seq<Event>, call: Call, r: ReqId, id: A.Id) {
    && Then(t, Decided(id, A.Decision(true, call.subject)), Judged(r, A.Authorized(id)))
    && Then(t, Judged(r, A.Authorized(id)), Recorded(r, ToolAuthorized(id), true))
  }

  /** Policy lets the call through, or an approval does. */
  ghost predicate Cleared(t: seq<Event>, call: Call, r: ReqId) {
    NonBlocking(call.decision) || (call.decision.RequireApproval? && exists id :: ApprovedBy(t, call, r, id))
  }

  ghost predicate Justified(t: seq<Event>, call: Call, r: ReqId) {
    Recorded(r, ToolRequested, true) in t && Cleared(t, call, r)
  }

  // ---- invariants of every run ---------------------------------------------

  lemma ThenLater(t: seq<Event>, ev: seq<Event>, a: Event, b: Event)
    requires Then(t, a, b)
    ensures Then(t + ev, a, b)
  {
    var i, j :| 0 <= i < j < |t| && t[i] == a && t[j] == b;
    assert (t + ev)[i] == a && (t + ev)[j] == b;
  }

  lemma ThenNow(t: seq<Event>, a: Event, b: Event, ev: seq<Event>)
    requires a in t
    ensures Then(t + [b] + ev, a, b)
  {
    var i :| 0 <= i < |t| && t[i] == a;
    assert (t + [b] + ev)[i] == a && (t + [b] + ev)[|t|] == b;
  }

  lemma ClearedLater(t: seq<Event>, ev: seq<Event>, call: Call, r: ReqId)
    requires Cleared(t, call, r)
    ensures Cleared(t + ev, call, r)
  {
    if !NonBlocking(call.decision) {
      var id :| ApprovedBy(t, call, r, id);
      ThenLater(t, ev, Decided(id, A.Decision(true, call.subject)), Judged(r, A.Authorized(id)));
      ThenLater(t, ev, Judged(r, A.Authorized(id)), Recorded(r, ToolAuthorized(id), true));
      assert ApprovedBy(t + ev, call, r, id);
    }
  }

  predicate PastRequest(pc: Pc) {
    !pc.Received? && !pc.Arrived? && !pc.Answered?
  }

  /** A request that is past writing ToolRequested had that write accepted; one
      about to start is cleared. Both in enforce mode. */
  ghost predicate EvidenceHeld(cfg: Config, s: System) {
    cfg.mode.Enforce? ==> forall r :: r in s.pcs ==>
      && (PastRequest(s.pcs[r]) ==> Recorded(r, ToolRequested, true) in s.trace)
      && (s.pcs[r].Starting? || s.pcs[r].Sending? ==> Cleared(s.trace, cfg.calls(r), r))
  }

  /** A request holding a fresh authorization got it after a human approval. */
  ghost predicate AuthorizationHeld(cfg: Config, s: System) {
    forall r :: r in s.pcs && s.pcs[r].Authorizing? ==>
      Then(s.trace, Decided(s.pcs[r].id, A.Decision(true, cfg.calls(r).subject)), Judged(r, A.Authorized(s.pcs[r].id)))
  }

  /** Only calls that need approval, outside observe, and with an id, reach the store. */
  ghost predicate ApprovalPath(cfg: Config, s: System) {
    forall r :: r in s.pcs ==>
      match s.pcs[r]
      case Using => NeedsApproval(cfg, r)
      case Authorizing(_) => NeedsApproval(cfg, r)
      case Waiting(_) => NeedsApproval(cfg, r) && cfg.mode.Enforce?
      case Opening => NeedsApproval(cfg, r)
      case Asking(_) => NeedsApproval(cfg, r)
      case Overflowing => NeedsApproval(cfg, r)
      case Denying => cfg.mode.Enforce?
      case _ => true
  }

  predicate NeedsApproval(cfg: Config, r: ReqId) {
    cfg.calls(r).decision.RequireApproval? && !cfg.mode.Observe? && cfg.calls(r).hasId
  }

  /** A request is forwarded when it is past sending, and only then. */
  ghost predicate ForwardedWhenSent(s: System) {
    && (forall r :: Forwarded(r) in s.trace <==> r in s.pcs && (s.pcs[r].Closing? || s.pcs[r].Delivered?))
    && (forall i, j :: 0 <= i < j < |s.trace| && s.trace[i].Forwarded? && s.trace[j].Forwarded? ==>
          s.trace[i].req != s.trace[j].req)
  }

  /** A request that could not be sent is not a blank one and is refused next. */
  ghost predicate UnreachedFails(cfg: Config, s: System) {
    forall r :: Unreached(r) in s.trace ==> r in s.pcs && (s.pcs[r].Failing? || s.pcs[r].Answered?)
  }

  /** Until it uses the store a request has no verdict, and it never gets two. */
  ghost predicate JudgedOnce(s: System) {
    && (forall e :: e in s.trace && e.Judged? ==>
          && e.req in s.pcs && !s.pcs[e.req].Received? && !s.pcs[e.req].Arrived? && !s.pcs[e.req].Evaluating?
          && !s.pcs[e.req].Deciding? && !s.pcs[e.req].Using?)
    && (forall i, j :: 0 <= i < j < |s.trace| && s.trace[i].Judged? && s.trace[j].Judged? ==>
          s.trace[i].req != s.trace[j].req)
  }

  predicate Authorizes(e: Event) {
    e.Judged? && e.verdict.Authorized?
  }

  /** The store's approvals are those humans gave; what the trace used is used up,
      for the subject it was used for, and was used once. */
  ghost predicate StoreMatches(cfg: Config, s: System) {
    && A.Sound(s.store)
    && (forall id :: id in s.store.inner && (s.store.inner[id].state.Granted? || s.store.inner[id].state.Consumed?) ==>
          Decided(id, A.Decision(true, s.store.inner[id].subject)) in s.trace)
    && (forall e :: e in s.trace && Authorizes(e) ==>
          && e.verdict.id in s.store.inner
          && s.store.inner[e.verdict.id].state.Consumed?
          && s.store.inner[e.verdict.id].subject == cfg.calls(e.req).subject)
    && (forall i, j :: 0 <= i < j < |s.trace| && Authorizes(s.trace[i]) && Authorizes(s.trace[j]) ==>
          s.trace[i].verdict.id != s.trace[j].verdict.id)
  }

  /** Every forwarding was justified by what the trace held before it. */
  ghost predicate ForwardsJustified(cfg: Config, t: seq<Event>) {
    cfg.mode.Enforce? ==> forall i :: 0 <= i < |t| && t[i].Forwarded? ==>
      Justified(t[..i], cfg.calls(t[i].req), t[i].req)
  }

  /** Only requests that passed the checks at the door go on. */
  ghost predicate AdmittedGoOn(cfg: Config, s: System) {
    forall r :: r in s.pcs && !s.pcs[r].Received? && !s.pcs[r].Answered? ==> Refusal(cfg.calls(r).ingress).None?
  }

  /** A call shadow turns away although policy only observes. */
  predicate BlankIdApproval(cfg: Config, r: ReqId) {
    cfg.mode.Shadow? && cfg.calls(r).decision.RequireApproval? && !cfg.calls(r).hasId
  }

  /** The calls turned away outside enforce for what they are. */
  predicate TurnedAway(cfg: Config, r: ReqId) {
    Refusal(cfg.calls(r).ingress).Some? || BlankIdApproval(cfg, r)
  }

  ghost predicate OnlyTurnedAwayRefused(cfg: Config, s: System) {
    !cfg.mode.Enforce? ==> forall r :: r in s.pcs ==>
      if TurnedAway(cfg, r) then
        s.pcs[r].Received? || s.pcs[r].Arrived? || s.pcs[r].Evaluating? || s.pcs[r].Deciding? || s.pcs[r].Answered?
      else s.pcs[r].Failing? || s.pcs[r].Answered? ==> Unreached(r) in s.trace
  }

  ghost predicate Inv(cfg: Config, s: System) {
    && EvidenceHeld(cfg, s) && AuthorizationHeld(cfg, s) && ApprovalPath(cfg, s)
    && ForwardedWhenSent(s) && UnreachedFails(cfg, s) && JudgedOnce(s) && StoreMatches(cfg, s)
    && ForwardsJustified(cfg, s.trace) && AdmittedGoOn(cfg, s) && OnlyTurnedAwayRefused(cfg, s)
  }

  // ---- what one move can do ------------------------------------------------

  /** A move adds events of its own request only; it forwards exactly from
      `Sending`, and is judged exactly from `Using`. */
  ghost predicate MoveShape(pc: Pc, r: ReqId, m: Move) {
    && (forall e :: e in m.events ==> !e.Decided? && e.req == r)
    && (m.events == [Forwarded(r)] || forall e :: e in m.events ==> !e.Forwarded?)
    && (Forwarded(r) in m.events ==> pc.Sending? && m.events == [Forwarded(r)])
    && (m.pc.Closing? || m.pc.Delivered? <==> Forwarded(r) in m.events || pc.Closing? || pc.Delivered?)
    && (Unreached(r) in m.events ==> m.pc.Failing?)
    && (pc.Failing? || pc.Answered? ==> m.pc.Answered?)
    && (if pc.Using? then exists v :: m.events == [Judged(r, v)] else forall e :: e in m.events ==> !e.Judged?)
    && (m.pc.Arrived? || m.pc.Evaluating? || m.pc.Deciding? || m.pc.Using? ==>
          pc.Received? || pc.Arrived? || pc.Evaluating? || pc.Deciding?)
    && !m.pc.Received?
  }

  lemma MoveShaped(cfg: Config, s: System, r: ReqId, ok: bool, now: nat, id: A.Id)
    requires r in s.pcs
    ensures MoveShape(s.pcs[r], r, Proceed(cfg, s, r, ok, now, id))
  {
    if s.pcs[r].Using? {
      UseShaped(cfg, s, r, now);
    } else if s.pcs[r].Opening? {
      OpenShaped(cfg, s, r, now, id);
    } else if BeforeUse(s.pcs[r]) {
      EntryShaped(cfg, s, r, ok, now, id);
    } else {
      RestShaped(cfg, s, r, ok, now, id);
    }
  }

  predicate BeforeUse(pc: Pc) {
    pc.Received? || pc.Arrived? || pc.Evaluating? || pc.Deciding?
  }

  lemma EntryShaped(cfg: Config, s: System, r: ReqId, ok: bool, now: nat, id: A.Id)
    requires r in s.pcs && BeforeUse(s.pcs[r])
    ensures MoveShape(s.pcs[r], r, Proceed(cfg, s, r, ok, now, id))
  {}

  lemma RestShaped(cfg: Config, s: System, r: ReqId, ok: bool, now: nat, id: A.Id)
    requires r in s.pcs && !BeforeUse(s.pcs[r]) && !s.pcs[r].Using? && !s.pcs[r].Opening?
    ensures MoveShape(s.pcs[r], r, Proceed(cfg, s, r, ok, now, id))
  {}

  lemma UseShaped(cfg: Config, s: System, r: ReqId, now: nat)
    ensures MoveShape(Using, r, Use(cfg, s, r, now))
  {}

  lemma OpenShaped(cfg: Config, s: System, r: ReqId, now: nat, id: A.Id)
    ensures MoveShape(Opening, r, Open(cfg, s, r, now, id))
  {}

  lemma PathMove(cfg: Config, s: System, r: ReqId, ok: bool, now: nat, id: A.Id)
    requires r in s.pcs && ApprovalPath(cfg, s)
    ensures ApprovalPath(cfg, After(s, r, Proceed(cfg, s, r, ok, now, id)))
  {}

  lemma AdmittedMove(cfg: Config, s: System, r: ReqId, ok: bool, now: nat, id: A.Id)
    requires r in s.pcs && AdmittedGoOn(cfg, s)
    ensures AdmittedGoOn(cfg, After(s, r, Proceed(cfg, s, r, ok, now, id)))
  {}

  lemma TurnedAwayMove(cfg: Config, s: System, r: ReqId, ok: bool, now: nat, id: A.Id)
    requires r in s.pcs && ApprovalPath(cfg, s) && AdmittedGoOn(cfg, s) && OnlyTurnedAwayRefused(cfg, s)
    ensures OnlyTurnedAwayRefused(cfg, After(s, r, Proceed(cfg, s, r, ok, now, id)))
  {}

  lemma ForwardMove(s: System, r: ReqId, m: Move)
    requires r in s.pcs && MoveShape(s.pcs[r], r, m) && ForwardedWhenSent(s)
    ensures ForwardedWhenSent(After(s, r, m))
  {}

  lemma UnreachedMove(cfg: Config, s: System, r: ReqId, m: Move)
    requires r in s.pcs && MoveShape(s.pcs[r], r, m) && UnreachedFails(cfg, s)
    ensures UnreachedFails(cfg, After(s, r, m))
  {}

  lemma JudgedMove(s: System, r: ReqId, m: Move)
    requires r in s.pcs && MoveShape(s.pcs[r], r, m) && JudgedOnce(s)
    ensures JudgedOnce(After(s, r, m))
  {}

  // ---- evidence and authorization ------------------------------------------

  /** Where a request can become cleared to start, in enforce mode. */
  lemma MoveClears(cfg: Config, s: System, r: ReqId, ok: bool, now: nat, id: A.Id)
    requires r in s.pcs && cfg.mode.Enforce?
    requires EvidenceHeld(cfg, s) && AuthorizationHeld(cfg, s) && ApprovalPath(cfg, s)
    ensures var m := Proceed(cfg, s, r, ok, now, id);
            && (m.pc.Starting? || m.pc.Sending? ==> Cleared(s.trace + m.events, cfg.calls(r), r))
            && (PastRequest(m.pc) ==> Recorded(r, ToolRequested, true) in s.trace + m.events)
  {
    var m := Proceed(cfg, s, r, ok, now, id);
    match s.pcs[r] {
      case Authorizing(a) =>
        var t, call := s.trace, cfg.calls(r);
        if ok {
          ThenLater(t, m.events, Decided(a, A.Decision(true, call.subject)), Judged(r, A.Authorized(a)));
          ThenNow(t, Judged(r, A.Authorized(a)), Recorded(r, ToolAuthorized(a), ok), []);
          assert t + [Recorded(r, ToolAuthorized(a), ok)] + [] == t + m.events;
          assert ApprovedBy(t + m.events, call, r, a);
        }
      case Starting => ClearedLater(s.trace, m.events, cfg.calls(r), r);
      case _ =>
    }
  }

  lemma EvidenceMove(cfg: Config, s: System, r: ReqId, m: Move)
    requires r in s.pcs && EvidenceHeld(cfg, s)
    requires cfg.mode.Enforce? ==>
               && (m.pc.Starting? || m.pc.Sending? ==> Cleared(s.trace + m.events, cfg.calls(r), r))
               && (PastRequest(m.pc) ==> Recorded(r, ToolRequested, true) in s.trace + m.events)
    ensures EvidenceHeld(cfg, After(s, r, m))
  {
    if cfg.mode.Enforce? {
      forall q | q in s.pcs && q != r && (s.pcs[q].Starting? || s.pcs[q].Sending?)
        ensures Cleared(s.trace + m.events, cfg.calls(q), q)
      {
        ClearedLater(s.trace, m.events, cfg.calls(q), q);
      }
    }
  }

  lemma UseAuthorizes(cfg: Config, s: System, r: ReqId, now: nat)
    requires StoreMatches(cfg, s)
    ensures var m := Use(cfg, s, r, now);
            m.pc.Authorizing? ==>
              Then(s.trace + m.events, Decided(m.pc.id, A.Decision(true, cfg.calls(r).subject)),
                Judged(r, A.Authorized(m.pc.id)))
  {
    var m, call := Use(cfg, s, r, now), cfg.calls(r);
    A.AuthorizedMeans(s.store, call.subject, call.requestId, now + Ttl(call), now);
    if m.pc.Authorizing? {
      ThenNow(s.trace, Decided(m.pc.id, A.Decision(true, call.subject)), Judged(r, A.Authorized(m.pc.id)), []);
      assert s.trace + m.events + [] == s.trace + m.events;
    }
  }

  lemma AuthorizationMove(cfg: Config, s: System, r: ReqId, m: Move)
    requires r in s.pcs && AuthorizationHeld(cfg, s)
    requires m.pc.Authorizing? ==>
               Then(s.trace + m.events, Decided(m.pc.id, A.Decision(true, cfg.calls(r).subject)),
                 Judged(r, A.Authorized(m.pc.id)))
    ensures AuthorizationHeld(cfg, After(s, r, m))
  {
    forall q | q in s.pcs && q != r && s.pcs[q].Authorizing?
      ensures Then(s.trace + m.events, Decided(s.pcs[q].id, A.Decision(true, cfg.calls(q).subject)),
              Judged(q, A.Authorized(s.pcs[q].id)))
    {
      ThenLater(s.trace, m.events, Decided(s.pcs[q].id, A.Decision(true, cfg.calls(q).subject)),
        Judged(q, A.Authorized(s.pcs[q].id)));
    }
  }

  /** Only using the store leads to a fresh authorization. */
  lemma AuthorizingOnlyByUse(cfg: Config, s: System, r: ReqId, ok: bool, now: nat, id: A.Id)
    requires r in s.pcs
    ensures Proceed(cfg, s, r, ok, now, id).pc.Authorizing? ==> s.pcs[r].Using?
  {}

  // ---- the store and the trace ---------------------------------------------

  ghost predicate GrantsShown(store: A.Store, t: seq<Event>) {
    forall id :: id in store.inner && (store.inner[id].state.Granted? || store.inner[id].state.Consumed?) ==>
      Decided(id, A.Decision(true, store.inner[id].subject)) in t
  }

  /** Store changes that use nothing up keep the trace's authorizations intact. */
  lemma StoreKeeps(cfg: Config, s: System, s': System, ev: seq<Event>)
    requires StoreMatches(cfg, s) && s'.trace == s.trace + ev
    requires forall e :: e in ev ==> !e.Judged?
    requires A.Sound(s'.store) && A.Evolves(s.store, s'.store) && GrantsShown(s'.store, s'.trace)
    ensures StoreMatches(cfg, s')
  {
    assert forall i :: |s.trace| <= i < |s'.trace| ==> s'.trace[i] in ev;
    assert forall i :: 0 <= i < |s.trace| ==> s'.trace[i] == s.trace[i] && s.trace[i] in s.trace;
  }

  lemma OpenKeeps(cfg: Config, s: System, r: ReqId, now: nat, id: A.Id)
    requires StoreMatches(cfg, s) && r in s.pcs
    ensures StoreMatches(cfg, After(s, r, Open(cfg, s, r, now, id)))
  {
    var call := cfg.calls(r);
    var req := A.Record(call.requestId, call.subject, call.agent, now + Ttl(call), A.Pending, None);
    if id !in s.store.inner {
      A.RequestBoundedKeeps(s.store, id, req, now, cfg.maxGlobal, cfg.maxPerAgent);
    }
    StoreKeeps(cfg, s, After(s, r, Open(cfg, s, r, now, id)), []);
  }

  lemma HumanKeeps(cfg: Config, s: System, id: A.Id, d: A.Decision, now: nat)
    requires StoreMatches(cfg, s)
    ensures StoreMatches(cfg, Apply(cfg, s, HumanDecides(id, d, now)))
  {
    A.DecideKeeps(s.store, id, d, now);
    var (_, accepted) := A.Decide(s.store, id, d, now);
    StoreKeeps(cfg, s, Apply(cfg, s, HumanDecides(id, d, now)), if accepted then [Decided(id, d)] else []);
  }

  lemma TimeKeeps(cfg: Config, s: System, now: nat)
    requires StoreMatches(cfg, s)
    ensures StoreMatches(cfg, Apply(cfg, s, TimePasses(now)))
  {
    StoreKeeps(cfg, s, Apply(cfg, s, TimePasses(now)), []);
  }

  /** Using the store: a new authorization names an approval the trace never used. */
  lemma UseKeeps(cfg: Config, s: System, r: ReqId, now: nat)
    requires StoreMatches(cfg, s) && r in s.pcs
    ensures StoreMatches(cfg, After(s, r, Use(cfg, s, r, now)))
  {
    var call := cfg.calls(r);
    A.ConsumeKeeps(s.store, call.subject, call.requestId, now + Ttl(call), now);
    UsedUp(cfg, s, After(s, r, Use(cfg, s, r, now)), r,
      A.Consume(s.store, call.subject, call.requestId, now + Ttl(call), now).1);
  }

  lemma UsedUp(cfg: Config, s: System, s': System, r: ReqId, v: A.Verdict)
    requires StoreMatches(cfg, s) && s'.trace == s.trace + [Judged(r, v)]
    requires A.UsesUp(s.store, s'.store, cfg.calls(r).subject, v)
    ensures StoreMatches(cfg, s')
  {
    var t := s.trace;
    assert forall e :: e in s'.trace <==> e in t || e == Judged(r, v);
    assert forall i :: 0 <= i < |t| ==> s'.trace[i] == t[i] && t[i] in t;
  }

  lemma StoreMove(cfg: Config, s: System, r: ReqId, ok: bool, now: nat, id: A.Id)
    requires r in s.pcs && StoreMatches(cfg, s)
    ensures StoreMatches(cfg, After(s, r, Proceed(cfg, s, r, ok, now, id)))
  {
    var m := Proceed(cfg, s, r, ok, now, id);
    MoveShaped(cfg, s, r, ok, now, id);
    if s.pcs[r].Using? {
      UseKeeps(cfg, s, r, now);
    } else if s.pcs[r].Opening? {
      OpenKeeps(cfg, s, r, now, id);
    } else {
      StoreUntouched(cfg, s, r, ok, now, id);
      StoreKeeps(cfg, s, After(s, r, m), m.events);
    }
  }

  lemma StoreUntouched(cfg: Config, s: System, r: ReqId, ok: bool, now: nat, id: A.Id)
    requires r in s.pcs && !s.pcs[r].Using? && !s.pcs[r].Opening?
    ensures Proceed(cfg, s, r, ok, now, id).store == s.store
  {}

  // ---- forwarding ----------------------------------------------------------

  /** New forwardings come only from a request about to send, cleared by then. */
  lemma JustifiedMove(cfg: Config, s: System, r: ReqId, m: Move)
    requires r in s.pcs && MoveShape(s.pcs[r], r, m) && ForwardsJustified(cfg, s.trace) && EvidenceHeld(cfg, s)
    ensures ForwardsJustified(cfg, s.trace + m.events)
  {
    var t := s.trace + m.events;
    forall i | 0 <= i < |t| && t[i].Forwarded? && cfg.mode.Enforce?
      ensures Justified(t[..i], cfg.calls(t[i].req), t[i].req)
    {
      if i < |s.trace| {
        assert t[..i] == s.trace[..i];
      } else {
        assert t[i] in m.events;
        assert i == |s.trace| && t[..i] == s.trace;
      }
    }
  }

  lemma JustifiedStays(cfg: Config, t: seq<Event>, e: Event)
    requires ForwardsJustified(cfg, t) && !e.Forwarded?
    ensures ForwardsJustified(cfg, t + [e])
  {
    forall i | 0 <= i < |t + [e]| && (t + [e])[i].Forwarded? && cfg.mode.Enforce?
      ensures Justified((t + [e])[..i], cfg.calls((t + [e])[i].req), (t + [e])[i].req)
    {
      assert (t + [e])[..i] == t[..i];
    }
  }

  lemma AdvanceKeeps(cfg: Config, s: System, r: ReqId, ok: bool, now: nat, id: A.Id)
    requires Inv(cfg, s) && r in s.pcs
    ensures Inv(cfg, After(s, r, Proceed(cfg, s, r, ok, now, id)))
  {
    var m := Proceed(cfg, s, r, ok, now, id);
    MoveShaped(cfg, s, r, ok, now, id);
    PathMove(cfg, s, r, ok, now, id);
    AdmittedMove(cfg, s, r, ok, now, id);
    TurnedAwayMove(cfg, s, r, ok, now, id);
    ForwardMove(s, r, m);
    UnreachedMove(cfg, s, r, m);
    JudgedMove(s, r, m);
    if cfg.mode.Enforce? { MoveClears(cfg, s, r, ok, now, id); }
    EvidenceMove(cfg, s, r, m);
    AuthorizingOnlyByUse(cfg, s, r, ok, now, id);
    if s.pcs[r].Using? { UseAuthorizes(cfg, s, r, now); }
    AuthorizationMove(cfg, s, r, m);
    StoreMove(cfg, s, r, ok, now, id);
    JustifiedMove(cfg, s, r, m);
  }

  // ---- every run -----------------------------------------------------------

  lemma ArriveKeeps(cfg: Config, s: System, r: ReqId)
    requires Inv(cfg, s)
    ensures Inv(cfg, Apply(cfg, s, Arrive(r)))
  {}

  lemma HumanDecidesKeeps(cfg: Config, s: System, id: A.Id, d: A.Decision, now: nat)
    requires Inv(cfg, s)
    ensures Inv(cfg, Apply(cfg, s, HumanDecides(id, d, now)))
  {
    var s' := Apply(cfg, s, HumanDecides(id, d, now));
    HumanKeeps(cfg, s, id, d, now);
    var (_, accepted) := A.Decide(s.store, id, d, now);
    if accepted {
      TraceGrows(cfg, s, s', Decided(id, d));
    }
  }

  /** An event of no request leaves the requests' invariants alone. */
  lemma TraceGrows(cfg: Config, s: System, s': System, e: Event)
    requires Inv(cfg, s) && e.Decided? && s'.pcs == s.pcs && s'.trace == s.trace + [e]
    ensures EvidenceHeld(cfg, s') && AuthorizationHeld(cfg, s') && ApprovalPath(cfg, s')
    ensures ForwardedWhenSent(s') && UnreachedFails(cfg, s') && JudgedOnce(s') && ForwardsJustified(cfg, s'.trace)
    ensures AdmittedGoOn(cfg, s') && OnlyTurnedAwayRefused(cfg, s')
  {
    JustifiedStays(cfg, s.trace, e);
    forall r | r in s.pcs && cfg.mode.Enforce? && (s.pcs[r].Starting? || s.pcs[r].Sending?)
      ensures Cleared(s'.trace, cfg.calls(r), r)
    {
      ClearedLater(s.trace, [e], cfg.calls(r), r);
    }
    forall r | r in s.pcs && s.pcs[r].Authorizing?
      ensures Then(s'.trace, Decided(s.pcs[r].id, A.Decision(true, cfg.calls(r).subject)),
              Judged(r, A.Authorized(s.pcs[r].id)))
    {
      ThenLater(s.trace, [e], Decided(s.pcs[r].id, A.Decision(true, cfg.calls(r).subject)),
        Judged(r, A.Authorized(s.pcs[r].id)));
    }
    assert forall f :: f in s'.trace <==> f in s.trace || f == e;
  }

  lemma TimePassesKeeps(cfg: Config, s: System, now: nat)
    requires Inv(cfg, s)
    ensures Inv(cfg, Apply(cfg, s, TimePasses(now)))
  {
    TimeKeeps(cfg, s, now);
  }

  /** Every run, with any interleaving, keeps the invariants. */
  lemma {:induction false} RunKeeps(cfg: Config, actions: seq<Action>)
    ensures Inv(cfg, Run(cfg, actions))
  {
    if actions != [] {
      var s, a := Run(cfg, actions[..|actions| - 1]), actions[|actions| - 1];
      RunKeeps(cfg, actions[..|actions| - 1]);
      match a {
        case Arrive(r) => ArriveKeeps(cfg, s, r);
        case Advance(r, ok, now, id) => if r in s.pcs { AdvanceKeeps(cfg, s, r, ok, now, id); }
        case HumanDecides(id, d, now) => HumanDecidesKeeps(cfg, s, id, d, now);
        case TimePasses(now) => TimePassesKeeps(cfg, s, now);
      }
    }
  }

  // ---- the promises --------------------------------------------------------

  /** In enforce mode nothing reaches the upstream unrecorded: before a call is
      forwarded its request was recorded, and either policy does not block it, or
      a human approved exactly its subject, the approval was then used by this
      request, and that use was recorded. Denied and rate-limited calls never are. */
  lemma NothingForwardedUnrecorded(cfg: Config, actions: seq<Action>, i: nat)
    requires cfg.mode.Enforce? && i < |Run(cfg, actions).trace| && Run(cfg, actions).trace[i].Forwarded?
    ensures var t := Run(cfg, actions).trace;
            var r := t[i].req;
            var call := cfg.calls(r);
            && Refusal(call.ingress).None? && Recorded(r, ToolRequested, true) in t[..i]
            && !call.decision.Deny? && !call.decision.RateLimit?
            && (call.decision.RequireApproval? ==> exists id :: ApprovedBy(t[..i], call, r, id))
  {
    RunKeeps(cfg, actions);
    var t := Run(cfg, actions).trace;
    assert Justified(t[..i], cfg.calls(t[i].req), t[i].req);
    assert Forwarded(t[i].req) in t;
  }

  /** An approval is used by at most one request, whatever the mode, and a request
      uses at most one approval. */
  lemma OneUsePerApproval(cfg: Config, actions: seq<Action>, r: ReqId, q: ReqId, a: A.Id, b: A.Id)
    requires Judged(r, A.Authorized(a)) in Run(cfg, actions).trace
    requires Judged(q, A.Authorized(b)) in Run(cfg, actions).trace
    ensures r == q <==> a == b
  {
    RunKeeps(cfg, actions);
    var t := Run(cfg, actions).trace;
    var i :| 0 <= i < |t| && t[i] == Judged(r, A.Authorized(a));
    var j :| 0 <= j < |t| && t[j] == Judged(q, A.Authorized(b));
    assert Authorizes(t[i]) && Authorizes(t[j]);
    if i != j {
      var lo, hi := if i < j then i else j, if i < j then j else i;
      assert t[lo].req != t[hi].req && t[lo].verdict.id != t[hi].verdict.id;
    }
  }

  /** So one approval lets at most one call through to the upstream. */
  lemma OneForwardPerApproval(cfg: Config, actions: seq<Action>, i: nat, j: nat, id: A.Id)
    requires var t := Run(cfg, actions).trace;
             && i < |t| && j < |t| && t[i].Forwarded? && t[j].Forwarded?
             && ApprovedBy(t, cfg.calls(t[i].req), t[i].req, id) && ApprovedBy(t, cfg.calls(t[j].req), t[j].req, id)
    ensures i == j
  {
    RunKeeps(cfg, actions);
    var t := Run(cfg, actions).trace;
    assert Judged(t[i].req, A.Authorized(id)) in t && Judged(t[j].req, A.Authorized(id)) in t;
    OneUsePerApproval(cfg, actions, t[i].req, t[j].req, id, id);
  }

  ghost function ApprovalForwards(cfg: Config, t: seq<Event>): set<ReqId> {
    set e | e in t && e.Forwarded? && cfg.calls(e.req).decision.RequireApproval? :: e.req
  }

  ghost function Grants(t: seq<Event>): set<A.Id> {
    set e | e in t && e.Decided? && e.d.approved :: e.id
  }

  ghost predicate UsedFor(t: seq<Event>, r: ReqId, id: A.Id) {
    Judged(r, A.Authorized(id)) in t && id in Grants(t)
  }

  lemma ForwardUsesGrant(cfg: Config, actions: seq<Action>, r: ReqId)
    requires cfg.mode.Enforce? && r in ApprovalForwards(cfg, Run(cfg, actions).trace)
    ensures exists id :: UsedFor(Run(cfg, actions).trace, r, id)
  {
    var t := Run(cfg, actions).trace;
    var i :| 0 <= i < |t| && t[i] == Forwarded(r);
    NothingForwardedUnrecorded(cfg, actions, i);
    var id :| ApprovedBy(t[..i], cfg.calls(r), r, id);
    assert Decided(id, A.Decision(true, cfg.calls(r).subject)) in t && Judged(r, A.Authorized(id)) in t;
    assert UsedFor(t, r, id);
  }

  /** Conservation: approval-gated calls that reach the upstream are never more
      than the approvals humans granted. */
  lemma ForwardsWithinGrants(cfg: Config, actions: seq<Action>)
    requires cfg.mode.Enforce?
    ensures |ApprovalForwards(cfg, Run(cfg, actions).trace)| <= |Grants(Run(cfg, actions).trace)|
  {
    var t := Run(cfg, actions).trace;
    InjectedSize(cfg, actions, ApprovalForwards(cfg, t), Grants(t));
  }

  lemma {:induction false} InjectedSize(cfg: Config, actions: seq<Action>, reqs: set<ReqId>, ids: set<A.Id>)
    requires cfg.mode.Enforce? && reqs <= ApprovalForwards(cfg, Run(cfg, actions).trace)
    requires forall r, id :: r in reqs && UsedFor(Run(cfg, actions).trace, r, id) ==> id in ids
    ensures |reqs| <= |ids|
    decreases |reqs|
  {
    if reqs != {} {
      var t := Run(cfg, actions).trace;
      var r :| r in reqs;
      ForwardUsesGrant(cfg, actions, r);
      var id :| UsedFor(t, r, id);
      forall q, other | q in reqs - {r} && UsedFor(t, q, other)
        ensures other in ids - {id}
      {
        OneUsePerApproval(cfg, actions, r, q, id, other);
      }
      InjectedSize(cfg, actions, reqs - {r}, ids - {id});
    }
  }

  /** Outside enforce a tool call that finished was forwarded unless it was turned
      away at the door, or in shadow needs approval and has no usable JSON-RPC id,
      or no upstream could be reached. Nothing policy says blocks it. */
  lemma ShadowRefusesExactly(cfg: Config, actions: seq<Action>, r: ReqId)
    requires !cfg.mode.Enforce? && r in Run(cfg, actions).pcs && Finished(Run(cfg, actions).pcs[r])
    ensures var t := Run(cfg, actions).trace;
            var call := cfg.calls(r);
            Forwarded(r) in t <==>
              && Refusal(call.ingress).None?
              && !(cfg.mode.Shadow? && call.decision.RequireApproval? && !call.hasId)
              && Unreached(r) !in t
  {
    RunKeeps(cfg, actions);
  }

  predicate Finished(pc: Pc) {
    pc.Answered? || pc.Delivered?
  }

  lemma RunNext(cfg: Config, actions: seq<Action>, a: Action)
    ensures Run(cfg, actions + [a]) == Apply(cfg, Run(cfg, actions), a)
  {
    assert (actions + [a])[..|actions|] == actions;
  }

  lemma Next(cfg: Config, actions: seq<Action>, a: Action) returns (more: seq<Action>)
    ensures more == actions + [a] && Run(cfg, more) == Apply(cfg, Run(cfg, actions), a)
  {
    more := actions + [a];
    RunNext(cfg, actions, a);
  }

  /** One step of a blank-id call, from where it stands to where it goes. */
  lemma BlankStep(cfg: Config, s: System, r: ReqId, ok: bool)
    requires BlankIdApproval(cfg, r) && r in s.pcs
    ensures var m := Proceed(cfg, s, r, ok, 0, 0);
            && (s.pcs[r].Received? && Refusal(cfg.calls(r).ingress).None? ==> m.pc == Arrived)
            && (s.pcs[r].Arrived? ==> m.pc == Evaluating) && (s.pcs[r].Evaluating? ==> m.pc == Deciding)
            && (s.pcs[r].Deciding? ==> m.pc == Answered && m.events == [Refused(r, 400)])
  {}

  lemma BlankAdvances(cfg: Config, actions: seq<Action>, r: ReqId, ok: bool, pc: Pc) returns (more: seq<Action>)
    requires BlankIdApproval(cfg, r) && r in Run(cfg, actions).pcs && Run(cfg, actions).pcs[r] == pc
    ensures more == actions + [Advance(r, ok, 0, 0)] && r in Run(cfg, more).pcs
    ensures pc.Received? && Refusal(cfg.calls(r).ingress).None? ==> Run(cfg, more).pcs[r] == Arrived
    ensures pc.Arrived? ==> Run(cfg, more).pcs[r] == Evaluating
    ensures pc.Evaluating? ==> Run(cfg, more).pcs[r] == Deciding
    ensures pc.Deciding? ==> Run(cfg, more).pcs[r] == Answered && Refused(r, 400) in Run(cfg, more).trace
  {
    BlankStep(cfg, Run(cfg, actions), r, ok);
    more := Next(cfg, actions, Advance(r, ok, 0, 0));
  }

  /** Shadow does refuse: a call that needs approval and has no usable id is
      answered 400 at its fourth step, whatever could be recorded. */
  lemma ShadowRefusesBlankIds(cfg: Config, ok: bool)
    requires BlankIdApproval(cfg, 0) && Refusal(cfg.calls(0).ingress).None?
    ensures var step := Advance(0, ok, 0, 0);
            var s := Run(cfg, [Arrive(0), step, step, step, step]);
            0 in s.pcs && s.pcs[0] == Answered && Refused(0, 400) in s.trace && Forwarded(0) !in s.trace
  {
    var step := Advance(0, ok, 0, 0);
    var actions := Next(cfg, [], Arrive(0));
    actions := BlankAdvances(cfg, actions, 0, ok, Received);
    actions := BlankAdvances(cfg, actions, 0, ok, Arrived);
    actions := BlankAdvances(cfg, actions, 0, ok, Evaluating);
    actions := BlankAdvances(cfg, actions, 0, ok, Deciding);
    assert actions == [Arrive(0), step, step, step, step];
    RunKeeps(cfg, actions);
  }

  /** Whatever the mode, a request that fails a check at the door is answered with
      that check's status at its first step. */
  lemma DoorRefuses(cfg: Config, ok: bool)
    requires Refusal(cfg.calls(0).ingress).Some?
    ensures var s := Run(cfg, [Arrive(0), Advance(0, ok, 0, 0)]);
            && 0 in s.pcs && s.pcs[0] == Answered
            && s.trace == [Refused(0, Refusal(cfg.calls(0).ingress).value)]
  {
    var actions := Next(cfg, [], Arrive(0));
    actions := Next(cfg, actions, Advance(0, ok, 0, 0));
    assert actions == [Arrive(0), Advance(0, ok, 0, 0)];
  }

  // ---- why enforce refuses -------------------------------------------------

  /** The store was asked and did not authorize the request. */
  ghost predicate NotAuthorized(t: seq<Event>, r: ReqId) {
    exists v :: Judged(r, v) in t && !v.Authorized?
  }

  /** The reasons enforce has for turning a call away. */
  ghost predicate Cause(t: seq<Event>, call: Call, r: ReqId) {
    || Recorded(r, ToolRequested, false) in t
    || Refusal(call.ingress).Some? || Unreached(r) in t
    || call.decision.Deny? || call.decision.RateLimit?
    || (call.decision.RequireApproval? && (!call.hasId || NotAuthorized(t, r) || UseUnrecorded(t, r)))
  }

  ghost predicate UseUnrecorded(t: seq<Event>, r: ReqId) {
    exists id :: Recorded(r, ToolAuthorized(id), false) in t
  }

  ghost predicate CauseAt(t: seq<Event>, call: Call, r: ReqId, pc: Pc) {
    match pc
    case Waiting(_) => NotAuthorized(t, r)
    case Opening => NotAuthorized(t, r)
    case Asking(_) => NotAuthorized(t, r)
    case Overflowing => NotAuthorized(t, r)
    case Denying => call.decision.Deny? || NotAuthorized(t, r)
    case Failing => Unreached(r) in t
    case Answered => Cause(t, call, r)
    case _ => true
  }

  lemma CauseLater(t: seq<Event>, ev: seq<Event>, call: Call, r: ReqId, pc: Pc)
    requires CauseAt(t, call, r, pc)
    ensures CauseAt(t + ev, call, r, pc)
  {
    assert forall e :: e in t ==> e in t + ev;
  }

  /** A refusal follows from what the request went through. */
  lemma MoveCaused(cfg: Config, s: System, r: ReqId, ok: bool, now: nat, id: A.Id)
    requires cfg.mode.Enforce? && r in s.pcs && ApprovalPath(cfg, s) && DenyingPath(cfg, r, s.pcs[r])
    requires CauseAt(s.trace, cfg.calls(r), r, s.pcs[r])
    ensures var m := Proceed(cfg, s, r, ok, now, id);
            CauseAt(s.trace + m.events, cfg.calls(r), r, m.pc) && DenyingPath(cfg, r, m.pc)
  {
    var m := Proceed(cfg, s, r, ok, now, id);
    CauseLater(s.trace, m.events, cfg.calls(r), r, s.pcs[r]);
    assert m.events != [] ==> m.events[0] in s.trace + m.events;
  }

  /** Only blocked calls are denied. */
  ghost predicate DenyingPath(cfg: Config, r: ReqId, pc: Pc) {
    pc.Denying? ==> cfg.calls(r).decision.Deny? || NeedsApproval(cfg, r)
  }

  ghost predicate Caused(cfg: Config, s: System) {
    forall r :: r in s.pcs ==> CauseAt(s.trace, cfg.calls(r), r, s.pcs[r]) && DenyingPath(cfg, r, s.pcs[r])
  }

  lemma StepCaused(cfg: Config, s: System, a: Action)
    requires cfg.mode.Enforce? && ApprovalPath(cfg, s) && Caused(cfg, s)
    ensures Caused(cfg, Apply(cfg, s, a))
  {
    var s' := Apply(cfg, s, a);
    forall q | q in s'.pcs
      ensures CauseAt(s'.trace, cfg.calls(q), q, s'.pcs[q]) && DenyingPath(cfg, q, s'.pcs[q])
    {
      if a.Advance? && a.req == q && q in s.pcs {
        MoveCaused(cfg, s, q, a.ok, a.now, a.newId);
      } else if q in s.pcs {
        var ev := s'.trace[|s.trace|..];
        assert s'.trace == s.trace + ev;
        CauseLater(s.trace, ev, cfg.calls(q), q, s.pcs[q]);
      }
    }
  }

  lemma {:induction false} RunCaused(cfg: Config, actions: seq<Action>)
    requires cfg.mode.Enforce?
    ensures Caused(cfg, Run(cfg, actions))
  {
    if actions != [] {
      var front := actions[..|actions| - 1];
      RunCaused(cfg, front);
      RunKeeps(cfg, front);
      StepCaused(cfg, Run(cfg, front), actions[|actions| - 1]);
    }
  }

  /** In enforce mode a call that was answered without being forwarded was turned
      away for cause: it failed a check at the door, its own record or the record
      of its approval's use could not be written, policy blocks it, it needs an
      approval it did not get, or no upstream could be reached. */
  lemma EnforceRefusesForCause(cfg: Config, actions: seq<Action>, r: ReqId)
    requires cfg.mode.Enforce? && r in Run(cfg, actions).pcs && Finished(Run(cfg, actions).pcs[r])
    ensures var t := Run(cfg, actions).trace;
            Forwarded(r) in t || Cause(t, cfg.calls(r), r)
  {
    RunKeeps(cfg, actions);
    RunCaused(cfg, actions);
  }

  /** However many requests race for the queue of approvals, it never holds more
      than the configured totals, and never two requests of one subject. */
  lemma {:induction false} QueueStaysBounded(cfg: Config, actions: seq<Action>)
    ensures A.WithinCapacity(Run(cfg, actions).store.inner, cfg.maxGlobal, cfg.maxPerAgent)
  {
    if actions != [] {
      QueueStaysBounded(cfg, actions[..|actions| - 1]);
      StepStaysBounded(cfg, Run(cfg, actions[..|actions| - 1]), actions[|actions| - 1]);
    }
  }

  lemma StepStaysBounded(cfg: Config, s: System, a: Action)
    requires A.WithinCapacity(s.store.inner, cfg.maxGlobal, cfg.maxPerAgent)
    ensures A.WithinCapacity(Apply(cfg, s, a).store.inner, cfg.maxGlobal, cfg.maxPerAgent)
  {
    match a {
      case Arrive(r) =>
      case Advance(r, ok, now, id) =>
        if r in s.pcs {
          MoveStaysBounded(cfg, s, r, ok, now, id);
        }
      case HumanDecides(id, d, now) =>
        A.DecideStaysWithin(s.store, id, d, now, cfg.maxGlobal, cfg.maxPerAgent);
      case TimePasses(now) =>
        A.FewerPendingFit(s.store.inner, A.Expire(s.store.inner, now), cfg.maxGlobal, cfg.maxPerAgent);
    }
  }

  lemma MoveStaysBounded(cfg: Config, s: System, r: ReqId, ok: bool, now: nat, id: A.Id)
    requires r in s.pcs && A.WithinCapacity(s.store.inner, cfg.maxGlobal, cfg.maxPerAgent)
    ensures A.WithinCapacity(Proceed(cfg, s, r, ok, now, id).store.inner, cfg.maxGlobal, cfg.maxPerAgent)
  {
    if s.pcs[r].Using? {
      var call := cfg.calls(r);
      A.ConsumeStaysWithin(s.store, call.subject, call.requestId, now + Ttl(call), now, cfg.maxGlobal, cfg.maxPerAgent);
    } else if s.pcs[r].Opening? {
      OpenStaysBounded(cfg, s, r, now, id);
    } else {
      StoreUntouched(cfg, s, r, ok, now, id);
    }
  }

  lemma OpenStaysBounded(cfg: Config, s: System, r: ReqId, now: nat, id: A.Id)
    requires A.WithinCapacity(s.store.inner, cfg.maxGlobal, cfg.maxPerAgent)
    ensures A.WithinCapacity(Open(cfg, s, r, now, id).store.inner, cfg.maxGlobal, cfg.maxPerAgent)
  {
    var call := cfg.calls(r);
    if id !in s.store.inner {
      var req := A.Record(call.requestId, call.subject, call.agent, now + Ttl(call), A.Pending, None);
      A.RequestStaysWithin(s.store, id, req, now, cfg.maxGlobal, cfg.maxPerAgent);
    }
  }

  // ---- every call finishes -------------------------------------------------

  /** How many more steps of its own a request can take. */
  function StepsLeft(pc: Pc): nat {
    match pc
    case Received => 10
    case Arrived => 9
    case Evaluating => 8
    case Deciding => 7
    case Using => 6
    case Opening => 5
    case Asking(_) => 4
    case Overflowing => 4
    case Authorizing(_) => 4
    case Starting => 3
    case Sending => 2
    case Closing => 1
    case Failing => 1
    case Waiting(_) => 1
    case Denying => 1
    case Answered => 0
    case Delivered => 0
  }

  /** The identifier drawn for a new record is not in the store yet. */
  ghost predicate FreshStep(s: System, a: Action) {
    a.Advance? && a.req in s.pcs && s.pcs[a.req].Opening? ==> a.newId !in s.store.inner
  }

  ghost predicate FreshRun(cfg: Config, actions: seq<Action>) {
    actions == [] ||
    (var front := actions[..|actions| - 1];
     FreshRun(cfg, front) && FreshStep(Run(cfg, front), actions[|actions| - 1]))
  }

  lemma StepProgresses(cfg: Config, s: System, r: ReqId, ok: bool, now: nat, id: A.Id)
    requires r in s.pcs && FreshStep(s, Advance(r, ok, now, id))
    ensures StepsLeft(Proceed(cfg, s, r, ok, now, id).pc) < StepsLeft(s.pcs[r]) || Finished(s.pcs[r])
    ensures Finished(s.pcs[r]) ==> Proceed(cfg, s, r, ok, now, id).pc == s.pcs[r]
  {}

  /** The steps `r` has taken since it arrived. */
  ghost function OwnSteps(cfg: Config, actions: seq<Action>, r: ReqId): nat {
    if actions == [] then 0
    else
      var front, a := actions[..|actions| - 1], actions[|actions| - 1];
      OwnSteps(cfg, front, r) + if a.Advance? && a.req == r && r in Run(cfg, front).pcs then 1 else 0
  }

  ghost predicate OnTime(s: System, r: ReqId, steps: nat) {
    r in s.pcs ==> Finished(s.pcs[r]) || StepsLeft(s.pcs[r]) + steps <= 10
  }

  lemma {:induction false} StaysOnTime(cfg: Config, actions: seq<Action>, r: ReqId)
    requires FreshRun(cfg, actions)
    ensures OnTime(Run(cfg, actions), r, OwnSteps(cfg, actions, r))
    ensures r !in Run(cfg, actions).pcs ==> OwnSteps(cfg, actions, r) == 0
  {
    if actions != [] {
      var front, a := actions[..|actions| - 1], actions[|actions| - 1];
      StaysOnTime(cfg, front, r);
      OneStepOnTime(cfg, Run(cfg, front), a, r, OwnSteps(cfg, front, r));
    }
  }

  lemma OneStepOnTime(cfg: Config, s: System, a: Action, r: ReqId, steps: nat)
    requires FreshStep(s, a) && OnTime(s, r, steps) && (r !in s.pcs ==> steps == 0)
    ensures OnTime(Apply(cfg, s, a), r, steps + if a.Advance? && a.req == r && r in s.pcs then 1 else 0)
    ensures r in s.pcs ==> r in Apply(cfg, s, a).pcs
  {
    if a.Advance? && a.req == r && r in s.pcs {
      StepProgresses(cfg, s, r, a.ok, a.now, a.newId);
    }
  }

  /** Whatever the other requests, the humans and the clock do, a request is
      answered or delivered after at most ten steps of its own, if identifiers are
      fresh. */
  lemma EveryCallFinishes(cfg: Config, actions: seq<Action>, r: ReqId)
    requires FreshRun(cfg, actions) && OwnSteps(cfg, actions, r) >= 10
    ensures r in Run(cfg, actions).pcs && Finished(Run(cfg, actions).pcs[r])
  {
    StaysOnTime(cfg, actions, r);
  }
}
