/** What one tool call leaves in the trace, from arrival to answer: every write of
    evidence, the verdict, the forwarding and the status, in their order. */
module CallStories {
  import opened Wrappers
  import opened Gateways
  import opened Admissions
  import opened Modes
  import A = Approvals

  /** The events of one request, in order. */
  function Own(t: seq<Event>, r: ReqId): seq<Event> {
    if t == [] then []
    else
      var e := t[|t| - 1];
      Own(t[..|t| - 1], r) + if !e.Decided? && e.req == r then [e] else []
  }

  predicate Wrote(e: Event, r: ReqId, kind: Kind) {
    e.Recorded? && e.req == r && e.kind == kind
  }

  // ---- the stories ---------------------------------------------------------

  /** How many records precede the branch on the decision: observe evaluates nothing. */
  function Head(mode: Mode): nat {
    if mode.Observe? then 1 else 2
  }

  /** An admitted call was recorded, which enforce insists on, and evaluated. */
  predicate Begins(cfg: Config, r: ReqId, own: seq<Event>) {
    && Refusal(cfg.calls(r).ingress).None?
    && |own| >= Head(cfg.mode) && Wrote(own[0], r, ToolRequested) && (cfg.mode.Enforce? ==> own[0].ok)
    && (!cfg.mode.Observe? ==> Wrote(own[1], r, PolicyEvaluated))
  }

  /** The call needs a human approval and can be bound to one. */
  predicate Gated(cfg: Config, r: ReqId) {
    !cfg.mode.Observe? && cfg.calls(r).decision.RequireApproval? && cfg.calls(r).hasId
  }

  predicate Unusable(v: A.Verdict) {
    v.WasDenied? || v.HasExpired? || v.AlreadyUsed? || v.BindingMismatch?
  }

  predicate JudgedFirst(r: ReqId, rest: seq<Event>) {
    |rest| >= 1 && rest[0].Judged? && rest[0].req == r
  }

  /** Let through: nothing stands in the way, or an authorization was used and
      recorded; shadow goes on whatever the store says, after simulating a request. */
  predicate Passed(cfg: Config, r: ReqId, rest: seq<Event>) {
    if Gated(cfg, r) then
      JudgedFirst(r, rest) &&
      (match rest[0].verdict
       case Authorized(id) =>
         |rest| == 2 && Wrote(rest[1], r, ToolAuthorized(id)) && (cfg.mode.Enforce? ==> rest[1].ok)
       case NotFound =>
         && cfg.mode.Shadow? && |rest| == 2 && rest[1].Recorded? && rest[1].req == r
         && (rest[1].kind.HumanApprovalRequested? || rest[1].kind.ToolDenied?)
       case _ => cfg.mode.Shadow? && |rest| == 1)
    else
      && rest == []
      && (cfg.mode.Observe? || !cfg.calls(r).decision.RequireApproval?)
      && (cfg.mode.Enforce? ==> !cfg.calls(r).decision.Deny? && !cfg.calls(r).decision.RateLimit?)
  }

  /** Let through, and the invocation recorded as started. */
  predicate Started(cfg: Config, r: ReqId, rest: seq<Event>) {
    |rest| >= 1 && Wrote(rest[|rest| - 1], r, ToolInvocationStarted) && Passed(cfg, r, rest[..|rest| - 1])
  }

  predicate Reached(cfg: Config, r: ReqId, rest: seq<Event>) {
    |rest| >= 1 && rest[|rest| - 1] == Forwarded(r) && Started(cfg, r, rest[..|rest| - 1])
  }

  predicate Lost(cfg: Config, r: ReqId, rest: seq<Event>) {
    |rest| >= 1 && rest[|rest| - 1] == Unreached(r) && Started(cfg, r, rest[..|rest| - 1])
  }

  /** Forwarded, and recorded as finished. */
  predicate Closed(cfg: Config, r: ReqId, rest: seq<Event>) {
    |rest| >= 1 && Wrote(rest[|rest| - 1], r, ToolInvocationFinished) && Reached(cfg, r, rest[..|rest| - 1])
  }

  /** Started, but no upstream was reached: recorded and answered 502. */
  predicate FailedToSend(cfg: Config, r: ReqId, rest: seq<Event>) {
    && |rest| >= 2 && rest[|rest| - 1] == Refused(r, 502)
    && Wrote(rest[|rest| - 2], r, ErrorObserved) && Lost(cfg, r, rest[..|rest| - 2])
  }

  /** Refused for the verdict, in enforce mode. */
  predicate RefusedByVerdict(r: ReqId, rest: seq<Event>) {
    JudgedFirst(r, rest) &&
    (match rest[0].verdict
     case Authorized(id) =>
       |rest| == 3 && Wrote(rest[1], r, ToolAuthorized(id)) && !rest[1].ok && rest[2] == Refused(r, 500)
     case StillPending(_) => |rest| == 2 && rest[1] == Refused(r, 202)
     case NotFound =>
       && |rest| == 3 && rest[1].Recorded? && rest[1].req == r
       && (if rest[1].kind.HumanApprovalRequested? then rest[2] == Refused(r, 202)
           else rest[1].kind.ToolDenied? && rest[2] == Refused(r, 429))
     case _ => |rest| == 3 && Wrote(rest[1], r, ToolDenied) && rest[2] == Refused(r, 403))
  }

  /** Refused for the decision, or for what the store says. */
  predicate RefusedByPolicy(cfg: Config, r: ReqId, rest: seq<Event>) {
    match cfg.calls(r).decision
    case Deny =>
      cfg.mode.Enforce? && |rest| == 2 && Wrote(rest[0], r, ToolDenied) && rest[1] == Refused(r, 403)
    case RateLimit => cfg.mode.Enforce? && rest == [Refused(r, 429)]
    case RequireApproval(_) =>
      if !cfg.calls(r).hasId then !cfg.mode.Observe? && rest == [Refused(r, 400)]
      else cfg.mode.Enforce? && RefusedByVerdict(r, rest)
    case _ => false
  }

  /** A call that could not be recorded, in enforce mode. */
  predicate Unrecorded(cfg: Config, r: ReqId, own: seq<Event>) {
    && Refusal(cfg.calls(r).ingress).None? && cfg.mode.Enforce?
    && |own| == 2 && Wrote(own[0], r, ToolRequested) && !own[0].ok && own[1] == Refused(r, 500)
  }

  /** All the ways a call is answered without being forwarded. */
  predicate RefusedStory(cfg: Config, r: ReqId, own: seq<Event>) {
    || (Refusal(cfg.calls(r).ingress).Some? && own == [Refused(r, Refusal(cfg.calls(r).ingress).value)])
    || Unrecorded(cfg, r, own)
    || (Begins(cfg, r, own) && RefusedByPolicy(cfg, r, own[Head(cfg.mode)..]))
    || (Begins(cfg, r, own) && FailedToSend(cfg, r, own[Head(cfg.mode)..]))
  }

  /** The only way a call is forwarded. */
  predicate DeliveredStory(cfg: Config, r: ReqId, own: seq<Event>) {
    Begins(cfg, r, own) && Closed(cfg, r, own[Head(cfg.mode)..])
  }

  // ---- the story so far ----------------------------------------------------

  predicate LaterAt(cfg: Config, r: ReqId, pc: Pc, rest: seq<Event>) {
    match pc
    case Deciding => rest == []
    case Using => Gated(cfg, r) && rest == []
    case Authorizing(id) => Gated(cfg, r) && rest == [Judged(r, A.Authorized(id))]
    case Waiting(id) => Gated(cfg, r) && cfg.mode.Enforce? && rest == [Judged(r, A.StillPending(id))]
    case Opening => Gated(cfg, r) && rest == [Judged(r, A.NotFound)]
    case Asking(_) => Gated(cfg, r) && rest == [Judged(r, A.NotFound)]
    case Overflowing => Gated(cfg, r) && rest == [Judged(r, A.NotFound)]
    case Denying =>
      cfg.mode.Enforce? &&
      (if Gated(cfg, r) then JudgedFirst(r, rest) && |rest| == 1 && Unusable(rest[0].verdict)
       else cfg.calls(r).decision.Deny? && rest == [])
    case Starting => Passed(cfg, r, rest)
    case Sending => Started(cfg, r, rest)
    case Closing => Reached(cfg, r, rest)
    case Failing => Lost(cfg, r, rest)
    case Delivered => Closed(cfg, r, rest)
    case _ => false
  }

  predicate Entering(pc: Pc) {
    pc.Received? || pc.Arrived? || pc.Evaluating?
  }

  predicate EntryAt(cfg: Config, r: ReqId, pc: Pc, own: seq<Event>) {
    if pc.Evaluating? then
      && Refusal(cfg.calls(r).ingress).None?
      && |own| == 1 && Wrote(own[0], r, ToolRequested) && (cfg.mode.Enforce? ==> own[0].ok)
    else own == [] && (pc.Arrived? ==> Refusal(cfg.calls(r).ingress).None?)
  }

  predicate StoryAt(cfg: Config, r: ReqId, pc: Pc, own: seq<Event>) {
    if pc.Answered? then RefusedStory(cfg, r, own)
    else if Entering(pc) then EntryAt(cfg, r, pc, own)
    else Begins(cfg, r, own) && LaterAt(cfg, r, pc, own[Head(cfg.mode)..])
  }

  ghost predicate StoriesHeld(cfg: Config, s: System) {
    forall r :: if r in s.pcs then StoryAt(cfg, r, s.pcs[r], Own(s.trace, r)) else Own(s.trace, r) == []
  }

  /** An approval someone waits for is still in the store. */
  ghost predicate WaitsKnown(s: System) {
    forall r :: r in s.pcs && s.pcs[r].Waiting? ==> s.pcs[r].id in s.store.inner
  }

  // ---- every step continues the story --------------------------------------

  lemma {:induction false} OwnAppended(t: seq<Event>, ev: seq<Event>, r: ReqId)
    ensures Own(t + ev, r) == Own(t, r) + Own(ev, r)
  {
    if ev == [] {
      assert t + ev == t;
    } else {
      OwnAppended(t, ev[..|ev| - 1], r);
      assert (t + ev)[..|t + ev| - 1] == t + ev[..|ev| - 1];
    }
  }

  lemma {:induction false} OwnOf(ev: seq<Event>, r: ReqId, q: ReqId)
    requires forall e :: e in ev ==> !e.Decided? && e.req == q
    ensures Own(ev, r) == if r == q then ev else []
  {
    if ev != [] {
      assert ev == ev[..|ev| - 1] + [ev[|ev| - 1]];
      OwnOf(ev[..|ev| - 1], r, q);
    }
  }

  /** The step of `r` continues the story it has. */
  ghost predicate MovesOn(cfg: Config, r: ReqId, m: Move, own: seq<Event>) {
    StoryAt(cfg, r, m.pc, own + m.events)
  }

  /** What follows the decision is complete, or as it should be at this point. */
  predicate Continues(cfg: Config, r: ReqId, pc: Pc, rest: seq<Event>) {
    if pc.Answered? then RefusedByPolicy(cfg, r, rest) || FailedToSend(cfg, r, rest) else LaterAt(cfg, r, pc, rest)
  }

  ghost predicate GoesOn(cfg: Config, r: ReqId, m: Move, rest: seq<Event>) {
    Continues(cfg, r, m.pc, rest + m.events)
  }

  /** The records before the branch on the decision. */
  lemma EntryStory(cfg: Config, s: System, r: ReqId, ok: bool, now: nat, id: A.Id, own: seq<Event>)
    requires r in s.pcs && StoryAt(cfg, r, s.pcs[r], own)
    requires Entering(s.pcs[r])
    ensures MovesOn(cfg, r, Proceed(cfg, s, r, ok, now, id), own)
  {}

  /** From the decision on, the story goes on after the same beginning. */
  lemma JoinStory(cfg: Config, r: ReqId, m: Move, own: seq<Event>)
    requires Begins(cfg, r, own) && GoesOn(cfg, r, m, own[Head(cfg.mode)..])
    ensures MovesOn(cfg, r, m, own)
  {
    BeginningStays(cfg, r, own, m.events);
    SliceOfSum(own, m.events, Head(cfg.mode));
    JoinedStory(cfg, r, m.pc, own + m.events);
  }

  lemma SliceOfSum(own: seq<Event>, ev: seq<Event>, k: nat)
    requires k <= |own|
    ensures (own + ev)[k..] == own[k..] + ev
  {}

  lemma JoinedStory(cfg: Config, r: ReqId, pc: Pc, own: seq<Event>)
    requires Begins(cfg, r, own) && Continues(cfg, r, pc, own[Head(cfg.mode)..])
    ensures StoryAt(cfg, r, pc, own)
  {}

  lemma BeginningStays(cfg: Config, r: ReqId, own: seq<Event>, ev: seq<Event>)
    requires Begins(cfg, r, own)
    ensures Begins(cfg, r, own + ev)
  {}

  lemma DecidingStory(cfg: Config, s: System, r: ReqId, rest: seq<Event>)
    requires LaterAt(cfg, r, Deciding, rest)
    ensures GoesOn(cfg, r, Decide(cfg, s, r), rest)
  {}

  lemma UsingStory(cfg: Config, s: System, r: ReqId, now: nat, rest: seq<Event>)
    requires LaterAt(cfg, r, Using, rest)
    ensures GoesOn(cfg, r, Use(cfg, s, r, now), rest)
  {}

  lemma OpeningStory(cfg: Config, s: System, r: ReqId, now: nat, id: A.Id, rest: seq<Event>)
    requires LaterAt(cfg, r, Opening, rest)
    ensures GoesOn(cfg, r, Open(cfg, s, r, now, id), rest)
  {
    assert rest + [] == rest;
  }

  lemma AuthorizingStory(cfg: Config, s: System, r: ReqId, ok: bool, now: nat, id: A.Id, rest: seq<Event>)
    requires r in s.pcs && s.pcs[r].Authorizing? && LaterAt(cfg, r, s.pcs[r], rest)
    ensures GoesOn(cfg, r, Proceed(cfg, s, r, ok, now, id), rest)
  {}

  lemma AskingStory(cfg: Config, s: System, r: ReqId, ok: bool, now: nat, id: A.Id, rest: seq<Event>)
    requires r in s.pcs && (s.pcs[r].Asking? || s.pcs[r].Overflowing?) && LaterAt(cfg, r, s.pcs[r], rest)
    ensures GoesOn(cfg, r, Proceed(cfg, s, r, ok, now, id), rest)
  {}

  lemma RefusingStory(cfg: Config, s: System, r: ReqId, ok: bool, now: nat, id: A.Id, rest: seq<Event>)
    requires r in s.pcs && (s.pcs[r].Waiting? || s.pcs[r].Denying?) && LaterAt(cfg, r, s.pcs[r], rest) && WaitsKnown(s)
    ensures GoesOn(cfg, r, Proceed(cfg, s, r, ok, now, id), rest)
  {}

  lemma SendingStory(cfg: Config, s: System, r: ReqId, ok: bool, now: nat, id: A.Id, rest: seq<Event>)
    requires r in s.pcs && LaterAt(cfg, r, s.pcs[r], rest) && (s.pcs[r].Starting? || s.pcs[r].Sending?)
    ensures GoesOn(cfg, r, Proceed(cfg, s, r, ok, now, id), rest)
  {
    assert (rest + Proceed(cfg, s, r, ok, now, id).events)[..|rest|] == rest;
  }

  lemma ClosingStory(cfg: Config, s: System, r: ReqId, ok: bool, now: nat, id: A.Id, rest: seq<Event>)
    requires r in s.pcs && LaterAt(cfg, r, s.pcs[r], rest) && (s.pcs[r].Closing? || s.pcs[r].Delivered?)
    ensures GoesOn(cfg, r, Proceed(cfg, s, r, ok, now, id), rest)
  {
    var more := rest + [Recorded(r, ToolInvocationFinished, ok)];
    assert more[..|more| - 1] == rest && rest + [] == rest;
  }

  lemma FailingStory(cfg: Config, s: System, r: ReqId, ok: bool, now: nat, id: A.Id, rest: seq<Event>)
    requires r in s.pcs && LaterAt(cfg, r, s.pcs[r], rest) && s.pcs[r].Failing?
    ensures GoesOn(cfg, r, Proceed(cfg, s, r, ok, now, id), rest)
  {
    var more := rest + [Recorded(r, ErrorObserved, ok), Refused(r, 502)];
    assert more[..|more| - 2] == rest;
    assert FailedToSend(cfg, r, more);
  }

  predicate ToSend(pc: Pc) {
    pc.Starting? || pc.Sending? || pc.Closing? || pc.Failing? || pc.Delivered?
  }

  lemma JudgingStory(cfg: Config, s: System, r: ReqId, ok: bool, now: nat, id: A.Id, rest: seq<Event>)
    requires r in s.pcs && LaterAt(cfg, r, s.pcs[r], rest) && WaitsKnown(s) && !ToSend(s.pcs[r])
    ensures GoesOn(cfg, r, Proceed(cfg, s, r, ok, now, id), rest)
  {
    match s.pcs[r] {
      case Deciding => DecidingStory(cfg, s, r, rest);
      case Using => UsingStory(cfg, s, r, now, rest);
      case Opening => OpeningStory(cfg, s, r, now, id, rest);
      case Authorizing(_) => AuthorizingStory(cfg, s, r, ok, now, id, rest);
      case Asking(_) => AskingStory(cfg, s, r, ok, now, id, rest);
      case Overflowing => AskingStory(cfg, s, r, ok, now, id, rest);
      case Waiting(_) => RefusingStory(cfg, s, r, ok, now, id, rest);
      case Denying => RefusingStory(cfg, s, r, ok, now, id, rest);
      case _ =>
    }
  }

  lemma AnsweredStory(cfg: Config, s: System, r: ReqId, ok: bool, now: nat, id: A.Id, own: seq<Event>)
    requires r in s.pcs && s.pcs[r].Answered? && StoryAt(cfg, r, s.pcs[r], own)
    ensures MovesOn(cfg, r, Proceed(cfg, s, r, ok, now, id), own)
  {
    assert own + [] == own;
  }

  lemma MoveStory(cfg: Config, s: System, r: ReqId, ok: bool, now: nat, id: A.Id, own: seq<Event>)
    requires r in s.pcs && StoryAt(cfg, r, s.pcs[r], own) && WaitsKnown(s)
    ensures MovesOn(cfg, r, Proceed(cfg, s, r, ok, now, id), own)
  {
    if s.pcs[r].Answered? {
      AnsweredStory(cfg, s, r, ok, now, id, own);
    } else if Entering(s.pcs[r]) {
      EntryStory(cfg, s, r, ok, now, id, own);
    } else {
      LaterStory(cfg, s, r, ok, now, id, own);
    }
  }

  lemma LaterStory(cfg: Config, s: System, r: ReqId, ok: bool, now: nat, id: A.Id, own: seq<Event>)
    requires r in s.pcs && Begins(cfg, r, own) && LaterAt(cfg, r, s.pcs[r], own[Head(cfg.mode)..]) && WaitsKnown(s)
    ensures MovesOn(cfg, r, Proceed(cfg, s, r, ok, now, id), own)
  {
    var rest := own[Head(cfg.mode)..];
    if s.pcs[r].Starting? || s.pcs[r].Sending? {
      SendingStory(cfg, s, r, ok, now, id, rest);
    } else if s.pcs[r].Failing? {
      FailingStory(cfg, s, r, ok, now, id, rest);
    } else if ToSend(s.pcs[r]) {
      ClosingStory(cfg, s, r, ok, now, id, rest);
    } else {
      JudgingStory(cfg, s, r, ok, now, id, rest);
    }
    JoinStory(cfg, r, Proceed(cfg, s, r, ok, now, id), own);
  }

  lemma MovedStories(cfg: Config, s: System, r: ReqId, m: Move)
    requires r in s.pcs && StoriesHeld(cfg, s) && MovesOn(cfg, r, m, Own(s.trace, r))
    requires forall e :: e in m.events ==> !e.Decided? && e.req == r
    ensures StoriesHeld(cfg, After(s, r, m))
  {
    forall q
      ensures Own(s.trace + m.events, q) == if q == r then Own(s.trace, r) + m.events else Own(s.trace, q)
    {
      OwnAppended(s.trace, m.events, q);
      OwnOf(m.events, q, r);
    }
  }

  lemma AdvanceStories(cfg: Config, s: System, r: ReqId, ok: bool, now: nat, id: A.Id)
    requires r in s.pcs && StoriesHeld(cfg, s) && WaitsKnown(s)
    ensures StoriesHeld(cfg, After(s, r, Proceed(cfg, s, r, ok, now, id)))
  {
    MoveShaped(cfg, s, r, ok, now, id);
    MoveStory(cfg, s, r, ok, now, id, Own(s.trace, r));
    MovedStories(cfg, s, r, Proceed(cfg, s, r, ok, now, id));
  }

  lemma StepStories(cfg: Config, s: System, a: Action)
    requires StoriesHeld(cfg, s) && WaitsKnown(s)
    ensures StoriesHeld(cfg, Apply(cfg, s, a))
  {
    match a {
      case Arrive(r) =>
      case Advance(r, ok, now, id) => if r in s.pcs { AdvanceStories(cfg, s, r, ok, now, id); }
      case HumanDecides(id, d, now) =>
        forall q
          ensures Own(s.trace + [Decided(id, d)], q) == Own(s.trace, q)
        {
          OwnAppended(s.trace, [Decided(id, d)], q);
        }
      case TimePasses(now) =>
    }
  }

  lemma UseKeys(cfg: Config, s: System, r: ReqId, now: nat)
    ensures Use(cfg, s, r, now).store.inner.Keys == s.store.inner.Keys
  {
    var call := cfg.calls(r);
    A.ConsumeLeaves(s.store, call.subject, call.requestId, now + Ttl(call), now);
  }

  lemma OpenKeys(cfg: Config, s: System, r: ReqId, now: nat, id: A.Id)
    ensures s.store.inner.Keys <= Open(cfg, s, r, now, id).store.inner.Keys
  {
    var call := cfg.calls(r);
    var req := A.Record(call.requestId, call.subject, call.agent, now + Ttl(call), A.Pending, None);
    A.RequestLeaves(s.store, id, req, now, cfg.maxGlobal, cfg.maxPerAgent);
  }

  /** Records stay in the store. */
  lemma KeysStay(cfg: Config, s: System, a: Action)
    ensures s.store.inner.Keys <= Apply(cfg, s, a).store.inner.Keys
  {
    if a.Advance? && a.req in s.pcs {
      if s.pcs[a.req].Using? {
        UseKeys(cfg, s, a.req, a.now);
      } else if s.pcs[a.req].Opening? {
        OpenKeys(cfg, s, a.req, a.now, a.newId);
      } else {
        StoreUntouched(cfg, s, a.req, a.ok, a.now, a.newId);
      }
    }
  }

  lemma StepWaits(cfg: Config, s: System, a: Action)
    requires WaitsKnown(s)
    ensures WaitsKnown(Apply(cfg, s, a))
  {
    KeysStay(cfg, s, a);
    if a.Advance? && a.req in s.pcs && s.pcs[a.req].Using? {
      var call := cfg.calls(a.req);
      var (after, v) := A.Consume(s.store, call.subject, call.requestId, a.now + Ttl(call), a.now);
      if v.StillPending? {
        A.VerdictsExactly(s.store, v.id, call.subject, call.requestId, a.now + Ttl(call), a.now);
      }
    }
  }

  lemma {:induction false} RunStories(cfg: Config, actions: seq<Action>)
    ensures StoriesHeld(cfg, Run(cfg, actions)) && WaitsKnown(Run(cfg, actions))
  {
    if actions != [] {
      var front := actions[..|actions| - 1];
      RunStories(cfg, front);
      StepStories(cfg, Run(cfg, front), actions[|actions| - 1]);
      StepWaits(cfg, Run(cfg, front), actions[|actions| - 1]);
    }
  }

  lemma StoryEnds(cfg: Config, r: ReqId, pc: Pc, own: seq<Event>)
    requires StoryAt(cfg, r, pc, own) && Finished(pc)
    ensures if pc.Delivered? then DeliveredStory(cfg, r, own) else RefusedStory(cfg, r, own)
  {}

  /** Whatever else runs, a finished call left exactly one of the stories: one way
      of being delivered, or one of the refusals, each with its own records in
      their order and its own status. */
  lemma EveryCallHasItsStory(cfg: Config, actions: seq<Action>, r: ReqId)
    requires r in Run(cfg, actions).pcs && Finished(Run(cfg, actions).pcs[r])
    ensures var s := Run(cfg, actions);
            if s.pcs[r].Delivered? then DeliveredStory(cfg, r, Own(s.trace, r))
            else RefusedStory(cfg, r, Own(s.trace, r))
  {
    RunStories(cfg, actions);
    StoryEnds(cfg, r, Run(cfg, actions).pcs[r], Own(Run(cfg, actions).trace, r));
  }

  // ---- what the stories say of the trace -----------------------------------

  lemma {:induction false} OwnIsIn(t: seq<Event>, r: ReqId, e: Event)
    ensures e in Own(t, r) <==> e in t && !e.Decided? && e.req == r
  {
    if t != [] {
      assert t == t[..|t| - 1] + [t[|t| - 1]];
      OwnIsIn(t[..|t| - 1], r, e);
    }
  }

  lemma {:induction false} OwnInOrder(t: seq<Event>, r: ReqId, i: nat, j: nat)
    requires i < j < |Own(t, r)|
    ensures Then(t, Own(t, r)[i], Own(t, r)[j])
  {
    var front, last := t[..|t| - 1], t[|t| - 1];
    assert t == front + [last];
    if j < |Own(front, r)| {
      OwnInOrder(front, r, i, j);
      ThenLater(front, [last], Own(front, r)[i], Own(front, r)[j]);
    } else {
      var a := Own(front, r)[i];
      OwnIsIn(front, r, a);
      ThenNow(front, a, last, []);
      assert front + [last] + [] == t;
    }
  }

  /** In enforce mode a call that was recorded and then denied, by policy or
      because its approval cannot be used, has the denial recorded before its 403. */
  lemma DenialsAreRecorded(cfg: Config, actions: seq<Action>, r: ReqId)
    requires cfg.mode.Enforce? && r in Run(cfg, actions).pcs && Finished(Run(cfg, actions).pcs[r])
    requires var t := Run(cfg, actions).trace;
             && Recorded(r, ToolRequested, true) in t && Forwarded(r) !in t
             && (cfg.calls(r).decision.Deny? || exists v :: Judged(r, v) in t && Unusable(v))
    ensures RecordedThenRefused(Run(cfg, actions).trace, r, ToolDenied, 403)
  {
    var t := Run(cfg, actions).trace;
    EveryCallHasItsStory(cfg, actions, r);
    OwnIsIn(t, r, Recorded(r, ToolRequested, true));
    OwnIsIn(t, r, Forwarded(r));
    if cfg.calls(r).decision.Deny? {
      DeniedByPolicy(cfg, r, Own(t, r));
    } else {
      var v :| Judged(r, v) in t && Unusable(v);
      OwnIsIn(t, r, Judged(r, v));
      DeniedByVerdict(cfg, r, Own(t, r), v);
    }
    EndsInTrace(t, r, ToolDenied, 403);
  }

  lemma EndsInTrace(t: seq<Event>, r: ReqId, kind: Kind, status: nat)
    requires EndsAfter(r, Own(t, r), kind, status)
    ensures RecordedThenRefused(t, r, kind, status)
  {
    WroteBefore(t, r, |Own(t, r)| - 2, |Own(t, r)| - 1, kind);
  }

  /** The record was written, accepted or not, and the answer came after it. */
  ghost predicate RecordedThenRefused(t: seq<Event>, r: ReqId, kind: Kind, status: nat) {
    exists ok :: Then(t, Recorded(r, kind, ok), Refused(r, status))
  }

  predicate EndsWith(r: ReqId, own: seq<Event>, status: nat) {
    |own| >= 1 && own[|own| - 1] == Refused(r, status)
  }

  /** The answer comes right after a record of the kind. */
  predicate EndsAfter(r: ReqId, own: seq<Event>, kind: Kind, status: nat) {
    |own| >= 2 && Wrote(own[|own| - 2], r, kind) && EndsWith(r, own, status)
  }

  predicate StoryOf(cfg: Config, r: ReqId, own: seq<Event>) {
    RefusedStory(cfg, r, own) || DeliveredStory(cfg, r, own)
  }

  lemma DeniedByPolicy(cfg: Config, r: ReqId, own: seq<Event>)
    requires cfg.mode.Enforce? && StoryOf(cfg, r, own) && cfg.calls(r).decision.Deny?
    requires Recorded(r, ToolRequested, true) in own && Forwarded(r) !in own
    ensures EndsAfter(r, own, ToolDenied, 403)
  {
    if DeliveredStory(cfg, r, own) {
      assert false;
    }
  }

  lemma DeniedByVerdict(cfg: Config, r: ReqId, own: seq<Event>, v: A.Verdict)
    requires cfg.mode.Enforce? && StoryOf(cfg, r, own) && Judged(r, v) in own && Unusable(v)
    requires Forwarded(r) !in own
    ensures EndsAfter(r, own, ToolDenied, 403)
  {
    JudgedIsFirst(cfg, r, own, v);
  }

  /** The verdict on a request is what follows the branch on its decision. */
  lemma JudgedIsFirst(cfg: Config, r: ReqId, own: seq<Event>, v: A.Verdict)
    requires StoryOf(cfg, r, own) && Judged(r, v) in own
    ensures Begins(cfg, r, own) && |own| > Head(cfg.mode) && own[Head(cfg.mode)] == Judged(r, v)
  {
    var k :| 0 <= k < |own| && own[k] == Judged(r, v);
    if Begins(cfg, r, own) {
      var head := Head(cfg.mode);
      assert k >= head && own[head..][k - head] == Judged(r, v);
      OnlyFirstJudged(cfg, r, own[head..], k - head);
    }
  }

  lemma OnlyFirstJudged(cfg: Config, r: ReqId, rest: seq<Event>, k: nat)
    requires RefusedByPolicy(cfg, r, rest) || FailedToSend(cfg, r, rest) || Closed(cfg, r, rest)
    requires k < |rest| && rest[k].Judged?
    ensures k == 0
  {
    if FailedToSend(cfg, r, rest) {
      var lost := rest[..|rest| - 2];
      assert k < |rest| - 3;
      StartedJudged(cfg, r, lost[..|lost| - 1], k);
    } else if Closed(cfg, r, rest) {
      var reached := rest[..|rest| - 1];
      assert k < |rest| - 2;
      StartedJudged(cfg, r, reached[..|reached| - 1], k);
    }
  }

  lemma StartedJudged(cfg: Config, r: ReqId, rest: seq<Event>, k: nat)
    requires Started(cfg, r, rest) && k < |rest| && rest[k].Judged?
    ensures k == 0
  {
    assert k < |rest| - 1 && rest[..|rest| - 1][k] == rest[k];
  }

  /** Outside observe a forwarded call was evaluated and recorded as started before
      it was forwarded, and as finished after it once it is delivered. */
  lemma ForwardsAreFramed(cfg: Config, actions: seq<Action>, r: ReqId)
    requires Forwarded(r) in Run(cfg, actions).trace
    ensures var s := Run(cfg, actions);
            && (exists ok :: Then(s.trace, Recorded(r, ToolRequested, ok), Forwarded(r)))
            && (!cfg.mode.Observe? ==> exists ok :: Then(s.trace, Recorded(r, PolicyEvaluated, ok), Forwarded(r)))
            && (exists ok :: Then(s.trace, Recorded(r, ToolInvocationStarted, ok), Forwarded(r)))
            && r in s.pcs && (s.pcs[r].Closing? || s.pcs[r].Delivered?)
            && (s.pcs[r].Delivered? ==>
                  exists ok :: Then(s.trace, Forwarded(r), Recorded(r, ToolInvocationFinished, ok)))
  {
    var s := Run(cfg, actions);
    RunKeeps(cfg, actions);
    RunStories(cfg, actions);
    OwnIsIn(s.trace, r, Forwarded(r));
    assert r in s.pcs && (s.pcs[r].Closing? || s.pcs[r].Delivered?);
    var n := ForwardPlace(cfg, r, s.pcs[r], Own(s.trace, r));
    FramedAt(s.trace, r, !cfg.mode.Observe?, n, s.pcs[r].Delivered?);
  }

  /** The forwarding is at place `n` of the story, between the records it needs. */
  predicate Frames(r: ReqId, own: seq<Event>, evaluated: bool, n: nat, closed: bool) {
    && 1 <= n < |own| && Wrote(own[0], r, ToolRequested) && (evaluated ==> n >= 2 && Wrote(own[1], r, PolicyEvaluated))
    && Wrote(own[n - 1], r, ToolInvocationStarted) && own[n] == Forwarded(r)
    && (closed ==> n + 1 < |own| && Wrote(own[n + 1], r, ToolInvocationFinished))
  }

  lemma ForwardPlace(cfg: Config, r: ReqId, pc: Pc, own: seq<Event>) returns (n: nat)
    requires StoryAt(cfg, r, pc, own) && (pc.Closing? || pc.Delivered?)
    ensures Frames(r, own, !cfg.mode.Observe?, n, pc.Delivered?)
  {
    var m := |own| - if pc.Delivered? then 1 else 0;
    var head := Head(cfg.mode);
    if pc.Delivered? {
      assert own[head..][..|own[head..]| - 1] == own[head..][..m - head];
    } else {
      assert own[head..][..m - head] == own[head..];
    }
    ReachedShape(cfg, r, own, m);
    n := m - 1;
  }

  lemma FramedAt(t: seq<Event>, r: ReqId, evaluated: bool, n: nat, closed: bool)
    requires Frames(r, Own(t, r), evaluated, n, closed)
    ensures exists ok :: Then(t, Recorded(r, ToolRequested, ok), Forwarded(r))
    ensures evaluated ==> exists ok :: Then(t, Recorded(r, PolicyEvaluated, ok), Forwarded(r))
    ensures exists ok :: Then(t, Recorded(r, ToolInvocationStarted, ok), Forwarded(r))
    ensures closed ==> exists ok :: Then(t, Forwarded(r), Recorded(r, ToolInvocationFinished, ok))
  {
    WroteBefore(t, r, 0, n, ToolRequested);
    WroteBefore(t, r, n - 1, n, ToolInvocationStarted);
    if evaluated {
      WroteBefore(t, r, 1, n, PolicyEvaluated);
    }
    if closed {
      var own := Own(t, r);
      OwnInOrder(t, r, n, n + 1);
      assert own[n + 1] == Recorded(r, ToolInvocationFinished, own[n + 1].ok);
    }
  }

  lemma WroteBefore(t: seq<Event>, r: ReqId, i: nat, j: nat, kind: Kind)
    requires i < j < |Own(t, r)| && Wrote(Own(t, r)[i], r, kind)
    ensures exists ok :: Then(t, Recorded(r, kind, ok), Own(t, r)[j])
  {
    var own := Own(t, r);
    OwnInOrder(t, r, i, j);
    assert own[i] == Recorded(r, kind, own[i].ok);
  }

  /** A story whose first `n` events end with the forwarding. */
  lemma ReachedShape(cfg: Config, r: ReqId, own: seq<Event>, n: nat)
    requires Begins(cfg, r, own) && Head(cfg.mode) <= n <= |own|
    requires Reached(cfg, r, own[Head(cfg.mode)..][..n - Head(cfg.mode)])
    ensures n >= Head(cfg.mode) + 2 && own[n - 1] == Forwarded(r) && Wrote(own[n - 2], r, ToolInvocationStarted)
  {
    var head := Head(cfg.mode);
    var rest := own[head..][..n - head];
    assert rest[|rest| - 1] == own[n - 1];
    assert rest[..|rest| - 1][|rest| - 2] == own[n - 2];
  }

  // ---- which answer each cause gets ----------------------------------------

  lemma UnsentAnswer(cfg: Config, r: ReqId, own: seq<Event>)
    requires RefusedStory(cfg, r, own) && Unreached(r) in own
    ensures EndsAfter(r, own, ErrorObserved, 502)
  {
    assert exists k :: 0 <= k < |own| && own[k] == Unreached(r);
  }

  /** Without a verdict: a call that was recorded and is held back by its decision. */
  lemma DecidedAnswer(cfg: Config, r: ReqId, own: seq<Event>)
    requires RefusedStory(cfg, r, own) && cfg.mode.Enforce? && Recorded(r, ToolRequested, true) in own
    ensures cfg.calls(r).decision.RateLimit? ==> EndsWith(r, own, 429)
    ensures cfg.calls(r).decision.RequireApproval? && !cfg.calls(r).hasId ==> EndsWith(r, own, 400)
  {}

  lemma UnrecordedAnswer(cfg: Config, r: ReqId, own: seq<Event>)
    requires RefusedStory(cfg, r, own) && cfg.mode.Enforce? && Recorded(r, ToolRequested, false) in own
    ensures EndsWith(r, own, 500)
  {
    var k :| 0 <= k < |own| && own[k] == Recorded(r, ToolRequested, false);
    if Begins(cfg, r, own) {
      var rest := own[Head(cfg.mode)..];
      assert k >= Head(cfg.mode) && rest[k - Head(cfg.mode)] == own[k];
    }
  }

  /** With a verdict: what follows it in enforce mode. */
  lemma JudgedAnswer(cfg: Config, r: ReqId, own: seq<Event>, v: A.Verdict)
    requires RefusedStory(cfg, r, own) && cfg.mode.Enforce? && Judged(r, v) in own && Unreached(r) !in own
    ensures v.StillPending? ==> EndsWith(r, own, 202)
    ensures v.NotFound? ==>
              || EndsAfter(r, own, ToolDenied, 429)
              || exists id :: EndsAfter(r, own, HumanApprovalRequested(id), 202)
    ensures v.Authorized? ==> EndsWith(r, own, 500) && Recorded(r, ToolAuthorized(v.id), false) in own
    ensures Unusable(v) ==> EndsAfter(r, own, ToolDenied, 403)
  {
    JudgedIsFirst(cfg, r, own, v);
    var rest := own[Head(cfg.mode)..];
    assert forall k :: 0 <= k < |rest| ==> rest[k] == own[k + Head(cfg.mode)];
    assert RefusedByVerdict(r, rest);
    if v.NotFound? && rest[1].kind.HumanApprovalRequested? {
      assert EndsAfter(r, own, HumanApprovalRequested(rest[1].kind.approval), 202);
    }
  }

  /** In enforce mode each cause of a refusal gets its own status, and the record
      that goes with it comes first. */
  lemma EveryCauseHasItsStatus(cfg: Config, actions: seq<Action>, r: ReqId)
    requires cfg.mode.Enforce? && r in Run(cfg, actions).pcs && Run(cfg, actions).pcs[r].Answered?
    ensures var t, call := Run(cfg, actions).trace, cfg.calls(r);
            && (Recorded(r, ToolRequested, false) in t ==> Refused(r, 500) in t)
            && (Unreached(r) in t ==> RecordedThenRefused(t, r, ErrorObserved, 502))
            && (Recorded(r, ToolRequested, true) in t && call.decision.RateLimit? ==> Refused(r, 429) in t)
            && (Recorded(r, ToolRequested, true) in t && call.decision.RequireApproval? && !call.hasId ==>
                  Refused(r, 400) in t)
  {
    var t := Run(cfg, actions).trace;
    var own := Own(t, r);
    EveryCallHasItsStory(cfg, actions, r);
    OwnIsIn(t, r, Recorded(r, ToolRequested, false));
    OwnIsIn(t, r, Recorded(r, ToolRequested, true));
    OwnIsIn(t, r, Unreached(r));
    if Recorded(r, ToolRequested, false) in own {
      UnrecordedAnswer(cfg, r, own);
      LastInTrace(t, r, 500);
    }
    if Unreached(r) in own {
      UnsentAnswer(cfg, r, own);
      EndsInTrace(t, r, ErrorObserved, 502);
    }
    if Recorded(r, ToolRequested, true) in own {
      DecidedAnswer(cfg, r, own);
      if cfg.calls(r).decision.RateLimit? {
        LastInTrace(t, r, 429);
      } else if cfg.calls(r).decision.RequireApproval? && !cfg.calls(r).hasId {
        LastInTrace(t, r, 400);
      }
    }
  }

  lemma LastInTrace(t: seq<Event>, r: ReqId, status: nat)
    requires EndsWith(r, Own(t, r), status)
    ensures Refused(r, status) in t
  {
    OwnIsIn(t, r, Refused(r, status));
  }

  /** In enforce mode each verdict of the store gets its own status: a call that
      joined or opened an approval gets 202, the latter after the request for the
      approval was written. */
  lemma EveryVerdictHasItsStatus(cfg: Config, actions: seq<Action>, r: ReqId, v: A.Verdict)
    requires cfg.mode.Enforce? && r in Run(cfg, actions).pcs && Run(cfg, actions).pcs[r].Answered?
    requires Judged(r, v) in Run(cfg, actions).trace && Unreached(r) !in Run(cfg, actions).trace
    ensures var t := Run(cfg, actions).trace;
            match v
            case StillPending(_) => Refused(r, 202) in t
            case NotFound =>
              || (exists id :: RecordedThenRefused(t, r, HumanApprovalRequested(id), 202))
              || RecordedThenRefused(t, r, ToolDenied, 429)
            case Authorized(id) => Recorded(r, ToolAuthorized(id), false) in t && Refused(r, 500) in t
            case _ => RecordedThenRefused(t, r, ToolDenied, 403)
  {
    var t := Run(cfg, actions).trace;
    var own := Own(t, r);
    EveryCallHasItsStory(cfg, actions, r);
    OwnIsIn(t, r, Judged(r, v));
    OwnIsIn(t, r, Unreached(r));
    JudgedAnswer(cfg, r, own, v);
    match v {
      case StillPending(_) => LastInTrace(t, r, 202);
      case NotFound =>
        if EndsAfter(r, own, ToolDenied, 429) {
          EndsInTrace(t, r, ToolDenied, 429);
        } else {
          var id :| EndsAfter(r, own, HumanApprovalRequested(id), 202);
          EndsInTrace(t, r, HumanApprovalRequested(id), 202);
        }
      case Authorized(id) =>
        OwnIsIn(t, r, Recorded(r, ToolAuthorized(id), false));
        LastInTrace(t, r, 500);
      case _ => EndsInTrace(t, r, ToolDenied, 403);
    }
  }

  // ---- from the store to the answer ----------------------------------------

  /** Two steps of a request about to use the store, whatever their environment. */
  lemma TwoSteps(cfg: Config, actions: seq<Action>, r: ReqId, a: Action, b: Action)
    requires a.Advance? && b.Advance? && a.req == r && b.req == r
    requires r in Run(cfg, actions).pcs && Run(cfg, actions).pcs[r].Using?
    ensures var s := Run(cfg, actions);
            var s1 := After(s, r, Use(cfg, s, r, a.now));
            Run(cfg, actions + [a, b]) == Apply(cfg, s1, b)
  {
    RunNext(cfg, actions, a);
    RunNext(cfg, actions + [a], b);
    assert actions + [a] + [b] == actions + [a, b];
  }

  /** What the store's first record of the subject makes of the use. */
  lemma UseAnswers(cfg: Config, s: System, r: ReqId, now: nat, id: A.Id)
    requires A.Leads(s.store.inner, cfg.calls(r).subject, id) && cfg.mode.Enforce?
    ensures var m, first := Use(cfg, s, r, now), s.store.inner[id];
            && m.store.inner.Keys == s.store.inner.Keys
            && (first.state.Pending? && now < first.expiresAt ==>
                  m.pc == Waiting(id) && m.events == [Judged(r, A.StillPending(id))])
            && (first.state.Denied? ==> m.pc == Denying && m.events == [Judged(r, A.WasDenied(id))])
  {
    var call := cfg.calls(r);
    A.VerdictsExactly(s.store, id, call.subject, call.requestId, now + Ttl(call), now);
    UseKeys(cfg, s, r, now);
  }

  /** A call is authorized exactly when the first approval of its subject is granted
      and in time, unless policy gives authorizations no time at all. */
  lemma AuthorizedExactly(cfg: Config, s: System, r: ReqId, now: nat, id: A.Id)
    requires cfg.calls(r).decision.RequireApproval?
    ensures Use(cfg, s, r, now).events == [Judged(r, A.Authorized(id))] <==>
            && A.Leads(s.store.inner, cfg.calls(r).subject, id) && s.store.inner[id].state.Granted?
            && now < s.store.inner[id].expiresAt && cfg.calls(r).decision.ttl > 0
  {
    var call := cfg.calls(r);
    A.AuthorizesExactly(s.store, id, call.subject, call.requestId, now + Ttl(call), now);
    A.FirstLeads(s.store.inner, call.subject, call.requestId, now);
  }

  /** In enforce mode, when a call asks the store, a subject still waiting for its
      first approval gets 202 and nothing is denied. */
  lemma WaitingIsAccepted(cfg: Config, actions: seq<Action>, r: ReqId, a: Action, b: Action, id: A.Id)
    requires cfg.mode.Enforce? && a.Advance? && b.Advance? && a.req == r && b.req == r
    requires r in Run(cfg, actions).pcs && Run(cfg, actions).pcs[r].Using?
    requires A.Leads(Run(cfg, actions).store.inner, cfg.calls(r).subject, id)
    requires var first := Run(cfg, actions).store.inner[id]; first.state.Pending? && a.now < first.expiresAt
    ensures Run(cfg, actions + [a, b]).trace ==
            Run(cfg, actions).trace + [Judged(r, A.StillPending(id)), Refused(r, 202)]
  {
    var t := Run(cfg, actions).trace;
    TwoSteps(cfg, actions, r, a, b);
    UseAnswers(cfg, Run(cfg, actions), r, a.now, id);
    assert t + [Judged(r, A.StillPending(id))] + [Refused(r, 202)] ==
           t + [Judged(r, A.StillPending(id)), Refused(r, 202)];
  }

  /** And one whose first approval a human denied has its denial recorded and gets 403. */
  lemma DeniedIsForbidden(cfg: Config, actions: seq<Action>, r: ReqId, a: Action, b: Action, id: A.Id)
    requires cfg.mode.Enforce? && a.Advance? && b.Advance? && a.req == r && b.req == r
    requires r in Run(cfg, actions).pcs && Run(cfg, actions).pcs[r].Using?
    requires A.Leads(Run(cfg, actions).store.inner, cfg.calls(r).subject, id)
    requires Run(cfg, actions).store.inner[id].state.Denied?
    ensures Run(cfg, actions + [a, b]).trace ==
            Run(cfg, actions).trace + [Judged(r, A.WasDenied(id)), Recorded(r, ToolDenied, b.ok), Refused(r, 403)]
  {
    var t := Run(cfg, actions).trace;
    TwoSteps(cfg, actions, r, a, b);
    UseAnswers(cfg, Run(cfg, actions), r, a.now, id);
    assert t + [Judged(r, A.WasDenied(id))] + [Recorded(r, ToolDenied, b.ok), Refused(r, 403)] ==
           t + [Judged(r, A.WasDenied(id)), Recorded(r, ToolDenied, b.ok), Refused(r, 403)];
  }

  /** A call that finds nothing asks for an approval of its own subject, agent and
      logical request, which lives as long as policy says; when the queue is full
      it asks for none. */
  lemma OpensItsRequest(cfg: Config, s: System, r: ReqId, ok: bool, now: nat, id: A.Id)
    requires r in s.pcs && s.pcs[r].Opening? && id !in s.store.inner && cfg.calls(r).decision.RequireApproval?
    ensures var m, call := Proceed(cfg, s, r, ok, now, id), cfg.calls(r);
            match m.pc
            case Asking(a) =>
              a in m.store.inner && m.store.inner[a].subject == call.subject &&
              (if A.Waits(s.store.inner, a, call.subject, now) then m.store.inner[a] == s.store.inner[a]
               else
                 var expires := now + call.decision.ttl;
                 && a == id
                 && m.store.inner[a] == A.Record(call.requestId, call.subject, call.agent, expires, A.Pending, None))
            case Overflowing => m.store.inner.Keys == s.store.inner.Keys
            case _ => false
  {
    var call := cfg.calls(r);
    var req := A.Record(call.requestId, call.subject, call.agent, now + Ttl(call), A.Pending, None);
    A.RequestLeaves(s.store, id, req, now, cfg.maxGlobal, cfg.maxPerAgent);
  }
}
