/** Pending requests, eviction and deletion over whole runs. */
module SessionRequests {
  import opened Options
  import opened PermissionModes
  import opened EventLog
  import opened SessionProtocol

  // ---- requests settle ----

  /** An unsettled request is still in its map with its timer to fire, and so is
      every request in its map. */
  predicate CanSettle(r: Request) {
    (r.outcome.None? ==> r.pending) && (r.pending ==> r.armed)
  }

  ghost predicate AllCanSettle(s: State) {
    forall q | q in s.requests :: CanSettle(s.requests[q])
  }

  /** What one turn does to one request. */
  lemma RequestChange(s: State, step: Step, q: RequestId)
    requires Enabled(s, step) && q in s.requests
    ensures var s' := After(s, step);
            var r := s.requests[q];
            && q in s'.requests
            && s'.requests[q] ==
                 match step
                 case Respond(id, request, answer) =>
                   if request == q && Answers(s, id, q, answer) then Settled(r, Answered(answer)).(pending := false)
                       else r
                 case Expire(request) =>
                   if request == q
                       then (if r.pending then Settled(r.(armed := false), TimedOut).(pending := false)
                           else r.(armed := false)) else r
                 case DeleteStart(id) =>
                   if id in s.live && r.owner == s.live[id] && r.pending then Settled(r, TimedOut) else r
                 case _ => r
  {
    hide MadeLive, Joined, Detached, FannedOut, Evicted, Replayed, VictimFits, EventsSince, Answers, Settled;
  }

  lemma RequestsChange(s: State, step: Step)
    requires Enabled(s, step)
    ensures After(s, step).requests.Keys == s.requests.Keys + if step.Ask? then {step.request} else {}
    ensures step.Ask? ==> After(s, step).requests[step.request] == Request(step.owner, step.kind, true, true, None)
  {
    hide MadeLive, Joined, Detached, FannedOut, Evicted, Replayed, VictimFits, EventsSince, Answers, Settled;
  }

  lemma CanSettleKept(s: State, step: Step)
    requires AllCanSettle(s) && Enabled(s, step)
    ensures AllCanSettle(After(s, step))
  {
    RequestsChange(s, step);
    forall q | q in After(s, step).requests ensures CanSettle(After(s, step).requests[q]) {
      if q in s.requests {
        RequestChange(s, step, q);
        hide After, Enabled;
      }
    }
  }

  lemma {:induction false} CanSettleInRun(tr: seq<State>, steps: seq<Step>, n: nat)
    requires Run(tr, steps) && n < |tr|
    ensures AllCanSettle(tr[n])
  {
    if n > 0 {
      CanSettleInRun(tr, steps, n - 1);
      hide After, Enabled, CanSettle;
      CanSettleKept(tr[n - 1], steps[n - 1]);
    }
  }

  lemma OutcomeKept(s: State, step: Step, q: RequestId)
    requires Enabled(s, step) && q in s.requests
    ensures q in After(s, step).requests
    ensures s.requests[q].outcome.Some? ==> After(s, step).requests[q].outcome == s.requests[q].outcome
  {
    RequestChange(s, step, q);
    hide After, Enabled;
  }

  /** Every request can still settle or has settled, its timer settles it at the
      latest, and what it settled to never changes: it settles exactly once. */
  lemma {:induction false} SettlesOnce(tr: seq<State>, steps: seq<Step>, m: nat, n: nat, q: RequestId)
    requires Run(tr, steps) && m <= n < |tr| && q in tr[m].requests
    ensures q in tr[n].requests
    ensures tr[m].requests[q].outcome.Some? ==> tr[n].requests[q].outcome == tr[m].requests[q].outcome
    ensures tr[n].requests[q].outcome.None? ==> tr[n].requests[q].pending && tr[n].requests[q].armed
    decreases n
  {
    CanSettleInRun(tr, steps, n);
    if m < n {
      SettlesOnce(tr, steps, m, n - 1, q);
      hide After, Enabled;
      OutcomeKept(tr[n - 1], steps[n - 1], q);
    }
  }

  /** The turn in which a request settled. */
  predicate SettledBy(s: State, step: Step, q: RequestId, outcome: Outcome) {
    && q in s.requests && s.requests[q].outcome.None?
    && match outcome
       case Answered(answer) =>
         && step.Respond? && step.request == q && step.answer == answer
         && Answers(s, step.id, q, answer)
       case TimedOut =>
         || step == Expire(q)
         || (step.DeleteStart? && step.id in s.live && s.requests[q].owner == s.live[step.id])
  }

  lemma SettlingTurn(s: State, step: Step, q: RequestId)
    requires Enabled(s, step) && AllCanSettle(s) && q in After(s, step).requests
             && After(s, step).requests[q].outcome.Some?
    requires q in s.requests ==> s.requests[q].outcome.None?
    ensures SettledBy(s, step, q, After(s, step).requests[q].outcome.value)
  {
    RequestsChange(s, step);
    if q in s.requests {
      RequestChange(s, step, q);
    }
    hide After, Enabled;
  }

  /** Whatever a request settled to was brought by one turn, at which nothing had
      settled it before: a client's answer for exactly this request, found in the
      live object's map, or the timer or a deletion. */
  lemma {:induction false} OutcomeIsExplained(tr: seq<State>, steps: seq<Step>, n: nat, q: RequestId) returns (k: nat)
    requires Run(tr, steps) && n < |tr| && q in tr[n].requests && tr[n].requests[q].outcome.Some?
    ensures k < n && SettledBy(tr[k], steps[k], q, tr[n].requests[q].outcome.value)
  {
    k := 0;
    if n > 0 {
      CanSettleInRun(tr, steps, n - 1);
      hide After, Enabled;
      if q in tr[n - 1].requests && tr[n - 1].requests[q].outcome.Some? {
        OutcomeKept(tr[n - 1], steps[n - 1], q);
        k := OutcomeIsExplained(tr, steps, n - 1, q);
      } else {
        SettlingTurn(tr[n - 1], steps[n - 1], q);
        k := n - 1;
      }
    }
  }

  /** The answer is of the kind the request waits for. */
  predicate Matches(kind: Kind, answer: Answer) {
    match answer
    case Permit(_) => kind == Permission
    case Review(_, _, _) => kind == Plan
    case Reply(_, _) => kind == Question
  }

  /** A client's answer to a pending request of the live object settles it to that
      answer, takes it out of its map, and touches no other request. */
  lemma AnswerSettles(s: State, id: SessionId, q: RequestId, answer: Answer)
    requires id in s.live && q in s.requests
    requires var r := s.requests[q]; r.owner == s.live[id] && Matches(r.kind, answer) && r.pending && r.outcome == None
    ensures Enabled(s, Respond(id, q, answer))
    ensures var s' := After(s, Respond(id, q, answer));
            && s' == s.(requests := s'.requests) && s'.requests.Keys == s.requests.Keys
            && s'.requests[q] == s.requests[q].(outcome := Some(Answered(answer)), pending := false)
            && forall p | p in s.requests && p != q :: s'.requests[p] == s.requests[p]
  {}

  /** An answer to any other request, to another object's, of another kind or no
      longer pending, changes nothing. */
  lemma StrayAnswerDoesNothing(s: State, id: SessionId, q: RequestId, answer: Answer)
    requires id in s.live
    requires q !in s.requests || s.requests[q].owner != s.live[id] || !Matches(s.requests[q].kind, answer)
             || !s.requests[q].pending
    ensures After(s, Respond(id, q, answer)) == s
  {}

  lemma PendingNeverReturns(s: State, step: Step, q: RequestId)
    requires Enabled(s, step) && q in s.requests && !s.requests[q].pending
    ensures q in After(s, step).requests && !After(s, step).requests[q].pending
  {
    RequestChange(s, step, q);
    hide After, Enabled;
  }

  lemma {:induction false} PendingNeverReturnsInRun(tr: seq<State>, steps: seq<Step>, m: nat, n: nat, q: RequestId)
    requires Run(tr, steps) && m <= n < |tr| && q in tr[m].requests && !tr[m].requests[q].pending
    ensures q in tr[n].requests && !tr[n].requests[q].pending
    decreases n
  {
    if m < n {
      PendingNeverReturnsInRun(tr, steps, m, n - 1, q);
      hide After, Enabled;
      PendingNeverReturns(tr[n - 1], steps[n - 1], q);
    }
  }

  /** In every run, a matching answer handled while its request was pending and
      unsettled is what the request has settled to in every later state, and the
      handler returns what the client said. */
  lemma AnswerIsTheResult(
    tr: seq<State>, steps: seq<Step>, k: nat, n: nat, id: SessionId, q: RequestId, answer: Answer)
    requires Run(tr, steps) && k < n < |tr| && steps[k] == Respond(id, q, answer)
    requires id in tr[k].live && q in tr[k].requests
    requires var r := tr[k].requests[q];
             r.owner == tr[k].live[id] && Matches(r.kind, answer) && r.pending && r.outcome == None
    ensures q in tr[n].requests && tr[n].requests[q].outcome == Some(Answered(answer)) && !tr[n].requests[q].pending
    ensures var outcome := tr[n].requests[q].outcome.value;
            match answer
            case Permit(decision) =>
              forall mode, destructive, tool | mode != Auto ::
                  PermissionResult(mode, destructive, tool, outcome) == decision
            case Review(approved, action, feedback) =>
              PlanReview(Planning, outcome) == if approved then PlanResult(true, action, None)
                  else PlanResult(false, None, feedback)
            case Reply(text, wasFreeform) =>
              forall mode | mode != Auto :: QuestionResult(mode, outcome) == Some((text, wasFreeform))
  {
    AnswerSettles(tr[k], id, q, answer);
    assert tr[k + 1] == After(tr[k], steps[k]);
    hide After, Enabled, Run;
    SettlesOnce(tr, steps, k + 1, n, q);
    PendingNeverReturnsInRun(tr, steps, k + 1, n, q);
  }

  /** With no answer the timer, or a deletion of its live session, settles a request
      to silence, and silence grants, approves and says nothing. */
  lemma SilenceSettles(s: State, q: RequestId)
    requires q in s.requests && s.requests[q].pending && s.requests[q].armed && s.requests[q].outcome == None
    ensures Enabled(s, Expire(q))
    ensures After(s, Expire(q)).requests[q]
            == s.requests[q].(outcome := Some(TimedOut), pending := false, armed := false)
    ensures forall id | id in s.live && s.live[id] == s.requests[q].owner ::
              After(s, DeleteStart(id)).requests[q] == s.requests[q].(outcome := Some(TimedOut))
    ensures forall mode, destructive, tool | mode != Auto ::
            PermissionResult(mode, destructive, tool, TimedOut) == Reject
    ensures PlanReview(Planning, TimedOut) == PlanResult(false, None, Some("Timed out waiting for review."))
    ensures forall mode | mode != Auto :: QuestionResult(mode, TimedOut) == Some(("", true))
  {}

  /** A planning or interactive session grants a permission only after a client
      granted exactly this request before its timer or a deletion settled it. */
  lemma GrantWasAnswered(
    tr: seq<State>, steps: seq<Step>, n: nat, q: RequestId, mode: Mode, destructive: string -> bool, tool: ToolRequest)
    returns (k: nat)
    requires Run(tr, steps) && n < |tr| && q in tr[n].requests && tr[n].requests[q].outcome.Some? && mode != Auto
    requires PermissionResult(mode, destructive, tool, tr[n].requests[q].outcome.value) != Reject
    ensures k < n && steps[k].Respond? && steps[k].request == q && steps[k].answer.Permit?
            && steps[k].answer.decision != Reject
    ensures q in tr[k].requests && tr[k].requests[q].outcome.None? && Answers(tr[k], steps[k].id, q, steps[k].answer)
  {
    GrantIff(mode, destructive, tool, tr[n].requests[q].outcome.value);
    k := OutcomeIsExplained(tr, steps, n, q);
  }

  /** A planning session leaves plan mode only after a client approved exactly this
      plan before its timer or a deletion settled it. */
  lemma PlanWasApproved(tr: seq<State>, steps: seq<Step>, n: nat, q: RequestId) returns (k: nat)
    requires Run(tr, steps) && n < |tr| && q in tr[n].requests && tr[n].requests[q].outcome.Some?
    requires PlanReview(Planning, tr[n].requests[q].outcome.value).approved
    ensures k < n && steps[k].Respond? && steps[k].request == q && steps[k].answer.Review? && steps[k].answer.approved
    ensures q in tr[k].requests && tr[k].requests[q].outcome.None? && Answers(tr[k], steps[k].id, q, steps[k].answer)
  {
    PlanApprovedIff(tr[n].requests[q].outcome.value);
    k := OutcomeIsExplained(tr, steps, n, q);
  }

  /** An answer to a question that is not the empty free-form one is what a client
      replied to exactly this question before anything else settled it. */
  lemma QuestionWasAnswered(tr: seq<State>, steps: seq<Step>, n: nat, q: RequestId, mode: Mode) returns (k: nat)
    requires Run(tr, steps) && n < |tr| && q in tr[n].requests && tr[n].requests[q].outcome.Some? && mode != Auto
    requires QuestionResult(mode, tr[n].requests[q].outcome.value) != Some(("", true))
    ensures k < n && steps[k].Respond? && steps[k].request == q && steps[k].answer.Reply?
    ensures QuestionResult(mode, tr[n].requests[q].outcome.value)
            == Some((steps[k].answer.answer, steps[k].answer.wasFreeform))
    ensures q in tr[k].requests && tr[k].requests[q].outcome.None? && Answers(tr[k], steps[k].id, q, steps[k].answer)
  {
    k := OutcomeIsExplained(tr, steps, n, q);
  }

  // ---- leaving the live map ----

  lemma EvictedLeaves(s: State, evicted: SessionId, id: SessionId)
    requires id in s.live && id !in Evicted(s, evicted).live
    ensures evicted == id && id in s.live && s.live[id] in s.objects && s.objects[s.live[id]].sockets == {}
  {}

  lemma MadeLiveLeaves(s: State, made: SessionId, o: ObjectId, victim: Option<SessionId>, id: SessionId)
    requires Linked(s) && (made !in s.live ==> VictimFits(s, victim)) && id in s.live
             && id !in MadeLive(s, made, o, victim).live
    ensures s.objects[s.live[id]].sockets == {} && s.modes[id] != Auto
  {
    hide Evicted;
    if victim.Some? {
      var room := Evicted(s, victim.value);
      assert id !in room.live;
      EvictedLeaves(s, victim.value, id);
    }
  }

  /** A session leaves the live map only by deletion, or idle and not auto. */
  lemma LeavesIdleOrDeleted(s: State, step: Step, id: SessionId)
    requires Linked(s) && Enabled(s, step) && id in s.live && id !in After(s, step).live
    ensures step == DeleteLive(id)
            || (s.live[id] in s.objects && s.objects[s.live[id]].sockets == {} && s.modes[id] != Auto)
  {
    TimerModes(s);
    LiveChange(s, step);
    hide Linked, MadeLive, Evicted, VictimFits, After;
    match step {
      case Attach(other, ws, since, made, victim) => MadeLiveLeaves(s, other, made, victim, id);
      case FireEviction(timer) => EvictedLeaves(s.(timers := s.timers - {timer}), s.timers[timer], id);
      case _ =>
    }
  }

  /** Which turns change the live map. */
  lemma LiveChange(s: State, step: Step)
    requires Enabled(s, step)
    ensures After(s, step).live ==
            match step
            case Attach(id, _, _, made, victim) => MadeLive(s, id, made, victim).live
            case FireEviction(timer) => Evicted(s.(timers := s.timers - {timer}), s.timers[timer]).live
            case DeleteLive(id) => s.live - {id}
            case _ => s.live
  {
    hide MadeLive, Joined, Detached, FannedOut, Evicted, Replayed, Responded, Expired, Abandoned, VictimFits;
  }

  lemma TimerModes(s: State)
    requires Linked(s)
    ensures forall t | t in s.timers :: s.timers[t] in s.modes && s.modes[s.timers[t]] != Auto
    ensures forall id | id in s.live :: s.live[id] in s.objects && id in s.modes
  {}

  /** In every run, whatever timers earlier objects of a session left behind, no
      turn but the deletion itself removes a session with an attached socket or an
      auto session. */
  lemma EvictionSparesSockets(tr: seq<State>, steps: seq<Step>, k: nat, id: SessionId)
    requires Run(tr, steps) && k < |steps| && id in tr[k].live && id !in tr[k + 1].live
    requires tr[k].live[id] in tr[k].objects && id in tr[k].modes
    requires tr[k].objects[tr[k].live[id]].sockets != {} || tr[k].modes[id] == Auto
    ensures steps[k] == DeleteLive(id)
    ensures exists j :: 0 <= j < k && steps[j] == DeleteStart(id)
  {
    LinkedInRun(tr, steps, k);
    hide Linked, Joined, Detached, FannedOut, Replayed, Responded, Expired, Abandoned, MadeLive, Evicted;
    assert Enabled(tr[k], steps[k]) && tr[k + 1] == After(tr[k], steps[k]);
    LeavesIdleOrDeleted(tr[k], steps[k], id);
    DeletionWasAsked(tr, steps, k, id);
  }

  lemma DeletingChange(s: State, step: Step)
    requires Enabled(s, step)
    ensures After(s, step).deleting == if step.DeleteStart? then s.deleting + {step.id} else s.deleting
  {
    hide MadeLive, Joined, Detached, FannedOut, Evicted, Replayed, Responded, Expired, Abandoned, VictimFits;
  }

  lemma {:induction false} DeletionWasAsked(tr: seq<State>, steps: seq<Step>, n: nat, id: SessionId)
    requires Run(tr, steps) && n < |tr| && id in tr[n].deleting
    ensures exists j :: 0 <= j < n && steps[j] == DeleteStart(id)
  {
    if n > 0 {
      assert Enabled(tr[n - 1], steps[n - 1]) && tr[n] == After(tr[n - 1], steps[n - 1]);
      hide After, Enabled;
      DeletingChange(tr[n - 1], steps[n - 1]);
      if id in tr[n - 1].deleting {
        DeletionWasAsked(tr, steps, n - 1, id);
      }
    }
  }
}
