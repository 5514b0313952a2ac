/** Replay and live delivery: the log has no gaps, and a socket that stays
    attached misses nothing. */
module SessionReplay {
  import opened Options
  import opened PermissionModes
  import opened EventLog
  import opened SessionProtocol

  ghost predicate LogsGapless(s: State) {
    forall id | id in s.rows :: Gapless(s.rows[id])
  }

  lemma LogsKept(s: State, step: Step)
    requires LogsGapless(s) && Enabled(s, step)
    ensures LogsGapless(After(s, step))
  {
    hide Joined, Detached, FannedOut, Replayed, Responded, Expired, Abandoned;
    RowsChange(s, step);
  }

  /** Only commits, creations and row deletions change the log. */
  lemma RowsChange(s: State, step: Step)
    requires Enabled(s, step)
    ensures After(s, step).rows ==
            match step
            case CreateRow(id, _) => s.rows[id := EMPTY]
            case Commit(id, name, data) => s.rows[id := Appended(s.rows[id], name, data)]
            case DeleteRow(id) => s.rows - {id}
            case _ => s.rows
  {
    hide MadeLive, Joined, Detached, FannedOut, Evicted, Replayed, Responded, Expired, Abandoned, VictimFits;
  }

  /** Sequence numbers per session are exactly 1 .. lastEventSeq in every state of
      every run. */
  lemma {:induction false} SequenceIsExact(tr: seq<State>, steps: seq<Step>, n: nat, id: SessionId)
    requires Run(tr, steps) && n < |tr| && id in tr[n].rows
    ensures Gapless(tr[n].rows[id])
  {
    LogsInRun(tr, steps, n);
  }

  lemma {:induction false} LogsInRun(tr: seq<State>, steps: seq<Step>, n: nat)
    requires Run(tr, steps) && n < |tr|
    ensures LogsGapless(tr[n])
  {
    if n > 0 {
      LogsInRun(tr, steps, n - 1);
      hide Init, After, Enabled, Gapless;
      LogsKept(tr[n - 1], steps[n - 1]);
    }
  }

  // ---- who is reached ----

  /** What decides whether a socket is reached. */
  lemma SameReach(s: State, s': State, ws: Socket)
    requires ws in s.clients && ws in s'.clients && s.clients[ws].session == s'.clients[ws].session
    requires s.clients[ws].open == s'.clients[ws].open && s.live == s'.live && s.objects == s'.objects
    ensures Reached(s', s.clients[ws].session, ws) <==> Reached(s, s.clients[ws].session, ws)
  {}

  /** Attaching one socket changes nothing for the others. */
  lemma AttachReach(
    s: State, id: SessionId, made: ObjectId, victim: Option<SessionId>, ws: Socket, since: nat, other: Socket)
    requires Linked(s) && ws !in s.clients && other in s.clients
    requires id !in s.live ==> made !in s.objects && VictimFits(s, victim)
    ensures var s' := Joined(MadeLive(s, id, made, victim), id, ws, since);
            && other in s'.clients && s'.clients[other] == s.clients[other]
            && (Reached(s', s.clients[other].session, other) <==> Reached(s, s.clients[other].session, other))
  {
    MadeLiveReach(s, id, made, victim, other);
    var m := MadeLive(s, id, made, victim);
    MadeLiveLinked(s, id, made, victim);
    hide MadeLive, VictimFits;
    JoinedReach(m, id, ws, since, other);
  }

  lemma MadeLiveReach(s: State, id: SessionId, made: ObjectId, victim: Option<SessionId>, other: Socket)
    requires Linked(s) && other in s.clients
    requires id !in s.live ==> made !in s.objects && VictimFits(s, victim)
    ensures Reached(MadeLive(s, id, made, victim), s.clients[other].session, other)
            <==> Reached(s, s.clients[other].session, other)
  {}

  lemma JoinedReach(s: State, id: SessionId, ws: Socket, since: nat, other: Socket)
    requires Linked(s) && other in s.clients && other != ws
    ensures var s' := Joined(s, id, ws, since);
            && other in s'.clients && s'.clients[other] == s.clients[other]
            && (Reached(s', s.clients[other].session, other) <==> Reached(s, s.clients[other].session, other))
  {}

  /** A detach takes out the detached socket only. */
  lemma DetachReach(s: State, ws: Socket, timer: TimerId, other: Socket)
    requires Linked(s) && ws in s.clients && other in s.clients
    ensures var s' := Detached(s, ws, timer);
            && (Reached(s', s.clients[other].session, other) ==> Reached(s, s.clients[other].session, other))
            && (other != ws ==> Reached(s, s.clients[other].session, other) ==>
                  Reached(s', s.clients[other].session, other))
  {}

  lemma FannedOutReach(s: State, id: SessionId, seqNo: nat, other: Socket)
    requires other in s.clients
    ensures var s' := FannedOut(s, id, seqNo);
            && other in s'.clients
            && s'.clients[other]
                  == (if Reached(s, id, other) then s.clients[other].(seen := s.clients[other].seen + {seqNo})
                      else s.clients[other])
            && (Reached(s', s.clients[other].session, other) <==> Reached(s, s.clients[other].session, other))
  {}

  /** An eviction never touches a session with a socket. */
  lemma EvictedReach(s: State, id: SessionId, other: Socket)
    requires other in s.clients
    ensures Reached(Evicted(s, id), s.clients[other].session, other) <==> Reached(s, s.clients[other].session, other)
  {}

  /** The turns after which a connection is no longer served. */
  predicate Leaves(s: State, step: Step, ws: Socket)
    requires ws in s.clients
  {
    step == CloseSocket(ws) || (step.Detach? && step.ws == ws) || step == DeleteLive(s.clients[ws].session)
  }

  /** One turn, seen from a connection that was there before it: a reached socket
      stays reached through every turn but its own close or detach and its
      session's deletion, and nothing else makes it reached. In particular no
      eviction, by whichever timer, takes a session from under a socket. */
  lemma ReachChange(s: State, step: Step, ws: Socket)
    requires Linked(s) && Enabled(s, step) && ws in s.clients
    ensures var s' := After(s, step);
            && ws in s'.clients && s'.clients[ws].session == s.clients[ws].session
                  && s'.clients[ws].since == s.clients[ws].since
            && (Reached(s', s.clients[ws].session, ws) ==> Reached(s, s.clients[ws].session, ws))
            && (Reached(s, s.clients[ws].session, ws) && !Leaves(s, step, ws) ==>
                  Reached(s', s.clients[ws].session, ws))
  {
    hide Linked, Joined, MadeLive, Detached, FannedOut, Evicted, VictimFits, Responded, Expired, Abandoned, Appended,
        EventsSince, Numbers, Answers;
    match step {
      case Attach(id, other, since, made, victim) => AttachReach(s, id, made, victim, other, since, ws);
      case Detach(other, timer) => DetachReach(s, other, timer, ws);
      case Broadcast(id, seqNo) => FannedOutReach(s, id, seqNo, ws);
      case FireEviction(timer) =>
        var ticked := s.(timers := s.timers - {timer});
        SameReach(s, ticked, ws);
        EvictedReach(ticked, s.timers[timer], ws);
      case CloseSocket(_) =>
      case DeleteLive(_) =>
      case _ => SameReach(s, After(s, step), ws);
    }
  }

  // ---- nothing is lost ----

  /** Everything a connection is owed has been sent or is about to be. */
  ghost predicate Served(s: State, ws: Socket)
    requires ws in s.clients
  {
    var c := s.clients[ws];
    c.answered && c.whole && c.session in s.rows && Reached(s, c.session, ws) ==>
      forall n | c.since < n <= s.rows[c.session].lastEventSeq :: n in c.seen || (c.session, n) in s.casts
  }

  ghost predicate AllServed(s: State) {
    forall ws | ws in s.clients :: Served(s, ws)
  }

  lemma BacklogServes(s: State, ws: Socket)
    requires ws in s.clients && LogsGapless(s)
    ensures Served(Replayed(s, ws), ws)
    ensures forall other | other in s.clients && other != ws ::
            other in Replayed(s, ws).clients && Replayed(s, ws).clients[other] == s.clients[other]
  {
    var c := s.clients[ws];
    if c.session in s.rows {
      var log := s.rows[c.session];
      PageIsConsecutive(log, c.since, BACKLOG_LIMIT);
      var page := EventsSince(log, c.since, BACKLOG_LIMIT);
      forall n | c.since < n <= log.lastEventSeq && log.lastEventSeq <= c.since + BACKLOG_LIMIT
          ensures n in Numbers(page) {
        assert page[n - c.since - 1].seqNo == n;
      }
    }
  }

  /** What one turn does to the numbers of a connection that was there before. */
  lemma SeenChange(s: State, step: Step, ws: Socket)
    requires Linked(s) && Enabled(s, step) && ws in s.clients && step != Backlog(ws)
    ensures var s' := After(s, step);
            && ws in s'.clients && s'.clients[ws].session == s.clients[ws].session
                  && s'.clients[ws].since == s.clients[ws].since
            && s'.clients[ws].answered == s.clients[ws].answered && s'.clients[ws].whole == s.clients[ws].whole
            && s'.clients[ws].seen ==
                 if step.Broadcast? && Reached(s, step.id, ws) then s.clients[ws].seen + {step.seqNo}
                     else s.clients[ws].seen
  {
    hide Linked, Joined, MadeLive, Detached, FannedOut, Evicted, VictimFits, Responded, Expired, Abandoned, Appended,
        EventsSince, Numbers, Answers;
    match step {
      case Attach(id, other, since, made, victim) => AttachReach(s, id, made, victim, other, since, ws);
      case Broadcast(id, seqNo) => FannedOutReach(s, id, seqNo, ws);
      case _ =>
    }
  }

  lemma ServedKept(s: State, step: Step, ws: Socket)
    requires Linked(s) && LogsGapless(s) && Enabled(s, step) && ws in s.clients && Served(s, ws) && step != Backlog(ws)
    ensures ws in After(s, step).clients && Served(After(s, step), ws)
  {
    ReachChange(s, step, ws);
    SeenChange(s, step, ws);
    RowsChange(s, step);
    CastsChange(s, step);
    hide After, Linked, LogsGapless;
    var s', c := After(s, step), s.clients[ws];
    if step.Broadcast? && Reached(s', c.session, ws) && c.session == step.id {
      assert Reached(s, step.id, ws);
    }
  }

  lemma CastsChange(s: State, step: Step)
    requires Enabled(s, step)
    ensures After(s, step).casts ==
            match step
            case Commit(id, _, _) => s.casts + {(id, s.rows[id].lastEventSeq + 1)}
            case Broadcast(id, seqNo) => s.casts - {(id, seqNo)}
            case _ => s.casts
  {
    hide MadeLive, Joined, Detached, FannedOut, Evicted, Replayed, Responded, Expired, Abandoned, VictimFits;
  }

  lemma NewClient(s: State, step: Step, ws: Socket)
    requires Enabled(s, step) && ws in After(s, step).clients && ws !in s.clients
    ensures !After(s, step).clients[ws].answered
  {
    hide MadeLive, Detached, Evicted, Responded, Expired, Abandoned, VictimFits, EventsSince, Reached;
  }

  lemma AllServedKept(s: State, step: Step)
    requires Linked(s) && LogsGapless(s) && Enabled(s, step) && AllServed(s)
    ensures AllServed(After(s, step))
  {
    hide Linked, LogsGapless, Served, After, Enabled;
    forall ws | ws in After(s, step).clients ensures Served(After(s, step), ws) {
      if ws !in s.clients {
        NewClient(s, step, ws);
        UnansweredIsServed(After(s, step), ws);
      } else if step == Backlog(ws) {
        BacklogServes(s, ws);
        AfterBacklog(s, ws);
      } else {
        ServedKept(s, step, ws);
      }
    }
  }

  lemma UnansweredIsServed(s: State, ws: Socket)
    requires ws in s.clients && !s.clients[ws].answered
    ensures Served(s, ws)
  {}

  lemma AfterBacklog(s: State, ws: Socket)
    requires Enabled(s, Backlog(ws))
    ensures ws in s.clients && After(s, Backlog(ws)) == Replayed(s, ws)
  {}

  lemma {:induction false} ServedInRun(tr: seq<State>, steps: seq<Step>, n: nat)
    requires Run(tr, steps) && n < |tr|
    ensures AllServed(tr[n])
  {
    if n > 0 {
      ServedInRun(tr, steps, n - 1);
      LinkedInRun(tr, steps, n - 1);
      LogsInRun(tr, steps, n - 1);
      hide After, Enabled, Linked, LogsGapless, AllServed;
      AllServedKept(tr[n - 1], steps[n - 1]);
    }
  }

  /** No event is lost on reconnect: once its backlog, under the limit, has been
      answered, a socket that is still attached has been sent every committed event
      above its number whose fan-out has run. */
  lemma NoEventLost(tr: seq<State>, steps: seq<Step>, n: nat, ws: Socket, seqNo: nat)
    requires Run(tr, steps) && n < |tr| && ws in tr[n].clients
    requires var c := tr[n].clients[ws];
             && c.answered && c.whole && Reached(tr[n], c.session, ws)
             && c.session in tr[n].rows && c.since < seqNo <= tr[n].rows[c.session].lastEventSeq
             && (c.session, seqNo) !in tr[n].casts
    ensures seqNo in tr[n].clients[ws].seen
  {
    ServedInRun(tr, steps, n);
    assert Served(tr[n], ws);
  }

  // ---- exactly which events the limit loses ----

  /** A backlog page holds all that was committed exactly when there were at most
      as many events as the limit. */
  lemma PageIsWholeIff(s: State, ws: Socket)
    requires ws in s.clients && s.clients[ws].session in s.rows && LogsGapless(s)
    ensures var c, log := s.clients[ws], s.rows[s.clients[ws].session];
            (forall n | c.since < n <= log.lastEventSeq :: n in Numbers(EventsSince(log, c.since, BACKLOG_LIMIT)))
            <==> log.lastEventSeq <= c.since + 500
  {
    var c, log := s.clients[ws], s.rows[s.clients[ws].session];
    var page := EventsSince(log, c.since, BACKLOG_LIMIT);
    PageIsConsecutive(log, c.since, BACKLOG_LIMIT);
    if log.lastEventSeq <= c.since + BACKLOG_LIMIT {
      forall n | c.since < n <= log.lastEventSeq ensures n in Numbers(page) {
        assert page[n - c.since - 1].seqNo == n;
      }
    } else {
      assert c.since + BACKLOG_LIMIT + 1 !in Numbers(page);
    }
  }

  /** An event that an answered connection has not been sent, and whose fan-out
      has run, is never sent to it later. */
  lemma {:induction false} LostForGood(tr: seq<State>, steps: seq<Step>, m: nat, n: nat, ws: Socket, seqNo: nat)
    requires Run(tr, steps) && m <= n < |tr| && ws in tr[m].clients
    requires var c := tr[m].clients[ws];
             && c.answered && seqNo !in c.seen && c.session in tr[m].rows && seqNo <= tr[m].rows[c.session].lastEventSeq
             && (c.session, seqNo) !in tr[m].casts
    ensures ws in tr[n].clients && tr[n].clients[ws].session == tr[m].clients[ws].session
            && seqNo !in tr[n].clients[ws].seen
    ensures Missed(tr[n], ws, seqNo)
    decreases n
  {
    if m < n {
      LostForGood(tr, steps, m, n - 1, ws, seqNo);
      LinkedInRun(tr, steps, n - 1);
      hide After, Enabled, Linked;
      MissedKept(tr[n - 1], steps[n - 1], ws, seqNo);
    } else {
      LinkedInRun(tr, steps, m);
    }
  }

  predicate Missed(s: State, ws: Socket, seqNo: nat) {
    && ws in s.clients
    && var c := s.clients[ws];
       && c.answered && seqNo !in c.seen && (c.session, seqNo) !in s.casts && c.session in s.modes
       && (c.session in s.rows ==> seqNo <= s.rows[c.session].lastEventSeq)
  }

  lemma MissedKept(s: State, step: Step, ws: Socket, seqNo: nat)
    requires Linked(s) && Enabled(s, step) && Missed(s, ws, seqNo)
    ensures Missed(After(s, step), ws, seqNo)
    ensures After(s, step).clients[ws].session == s.clients[ws].session
  {
    SeenChange(s, step, ws);
    RowsChange(s, step);
    CastsChange(s, step);
    ModesKept(s, step);
    if step.Broadcast? && Reached(s, step.id, ws) {
      SocketsOwnSession(s, step.id, ws);
    }
  }

  lemma SocketsOwnSession(s: State, id: SessionId, ws: Socket)
    requires Linked(s) && Reached(s, id, ws)
    ensures s.clients[ws].session == id
  {}

  /** The number was committed more than the limit above the client's own, and its
      fan-out was over before the socket could get it. */
  predicate BeyondPage(s: State, ws: Socket, seqNo: nat)
    requires ws in s.clients && s.clients[ws].session in s.rows
  {
    var c := s.clients[ws];
    && c.since + BACKLOG_LIMIT < seqNo <= s.rows[c.session].lastEventSeq
    && (c.session, seqNo) !in s.casts && seqNo !in c.seen
  }

  /** The number has been sent, or its fan-out is still to come. */
  predicate Coming(s: State, ws: Socket, seqNo: nat)
    requires ws in s.clients
  {
    seqNo in s.clients[ws].seen || (s.clients[ws].session, seqNo) in s.casts
  }

  predicate Committed(s: State, id: SessionId, seqNo: nat) {
    id in s.rows && seqNo <= s.rows[id].lastEventSeq
  }

  lemma PageBrings(s: State, ws: Socket, seqNo: nat)
    requires Linked(s) && LogsGapless(s) && Enabled(s, Backlog(ws)) && Committed(s, s.clients[ws].session, seqNo)
    requires s.clients[ws].since < seqNo
    ensures var s' := After(s, Backlog(ws));
            && ws in s'.clients && s'.clients[ws].session == s.clients[ws].session && s'.clients[ws].answered
            && s'.clients[ws].since == s.clients[ws].since
            && if BeyondPage(s, ws, seqNo) then Missed(s', ws, seqNo) else Coming(s', ws, seqNo)
  {
    AfterBacklog(s, ws);
    var c := s.clients[ws];
    var log := s.rows[c.session];
    var page := EventsSince(log, c.since, BACKLOG_LIMIT);
    PageIsConsecutive(log, c.since, BACKLOG_LIMIT);
    if seqNo <= c.since + BACKLOG_LIMIT {
      assert page[seqNo - c.since - 1].seqNo == seqNo;
    }
  }

  /** A row that is there was there before, since the session was made. */
  lemma {:induction false} RowsNeverReturn(tr: seq<State>, steps: seq<Step>, m: nat, n: nat, id: SessionId)
    requires Run(tr, steps) && m <= n < |tr| && id in tr[m].modes && id in tr[n].rows
    ensures id in tr[m].rows && id in tr[n].modes
    decreases n
  {
    ModesInRun(tr, steps, m, n);
    if m < n {
      ModesInRun(tr, steps, m, n - 1);
      hide Linked;
      RowsChange(tr[n - 1], steps[n - 1]);
      RowsNeverReturn(tr, steps, m, n - 1, id);
    }
  }

  predicate Owed(s: State, ws: Socket, seqNo: nat)
    requires ws in s.clients
  {
    Committed(s, s.clients[ws].session, seqNo) ==> Coming(s, ws, seqNo)
  }

  /** While a socket is served, what is coming to it keeps coming, and what is
      committed starts to. */
  lemma OwedKept(s: State, step: Step, ws: Socket, seqNo: nat)
    requires Linked(s) && Enabled(s, step) && ws in s.clients && s.clients[ws].answered
    ensures var s' := After(s, step);
            && ws in s'.clients && SameClient(s.clients[ws], s'.clients[ws])
            && (Reached(s', s.clients[ws].session, ws) ==>
                  && Reached(s, s.clients[ws].session, ws)
                  && (Coming(s, ws, seqNo) ==> Coming(s', ws, seqNo))
                  && (Owed(s, ws, seqNo) ==> Owed(s', ws, seqNo)))
  {
    ReachChange(s, step, ws);
    SeenChange(s, step, ws);
    RowsChange(s, step);
    CastsChange(s, step);
    hide After, Linked;
  }

  lemma TurnInRun(tr: seq<State>, steps: seq<Step>, n: nat)
    requires Run(tr, steps) && n + 1 < |tr|
    ensures n < |steps| && Enabled(tr[n], steps[n]) && tr[n + 1] == After(tr[n], steps[n])
  {
    hide After, Enabled, Init;
  }

  predicate SameClient(c: Client, d: Client) { d.answered && d.session == c.session && d.since == c.since }

  lemma {:induction false} OwedInRun(tr: seq<State>, steps: seq<Step>, m: nat, n: nat, ws: Socket, seqNo: nat)
    requires Run(tr, steps) && m <= n < |tr| && ws in tr[m].clients && tr[m].clients[ws].answered
    ensures ws in tr[n].clients && SameClient(tr[m].clients[ws], tr[n].clients[ws])
    ensures Reached(tr[n], tr[m].clients[ws].session, ws) ==>
              && Reached(tr[m], tr[m].clients[ws].session, ws)
              && (Coming(tr[m], ws, seqNo) ==> Coming(tr[n], ws, seqNo))
              && (Owed(tr[m], ws, seqNo) ==> Owed(tr[n], ws, seqNo))
    decreases n
  {
    hide After, Enabled, Linked, Init, Reached, Coming, Owed, Run;
    if m < n {
      OwedInRun(tr, steps, m, n - 1, ws, seqNo);
      LinkedInRun(tr, steps, n - 1);
      TurnInRun(tr, steps, n - 1);
      OwedKept(tr[n - 1], steps[n - 1], ws, seqNo);
    }
  }

  /** Exactly which events a reconnecting client is never sent. For every run in
      which a socket's backlog is answered at step k, and which ends with the
      socket still served: a number above the client's own that has been committed
      (by state j) and fanned out is missing if and only if, when the backlog was
      answered, it was beyond the page, its fan-out was already over, and it had not
      reached the socket by that. */
  lemma MissedIff(tr: seq<State>, steps: seq<Step>, k: nat, j: nat, n: nat, ws: Socket, seqNo: nat)
    requires Run(tr, steps) && k < j <= n < |tr| && steps[k] == Backlog(ws)
    requires ws in tr[n].clients && Reached(tr[n], tr[n].clients[ws].session, ws)
    requires var c := tr[n].clients[ws];
             && c.since < seqNo && Committed(tr[j], c.session, seqNo) && (c.session, seqNo) !in tr[n].casts
    ensures ws in tr[k].clients && tr[k].clients[ws].session in tr[k].rows
    ensures seqNo !in tr[n].clients[ws].seen <==> BeyondPage(tr[k], ws, seqNo)
  {
    LinkedInRun(tr, steps, k);
    LogsInRun(tr, steps, k);
    var id := tr[k].clients[ws].session;
    BacklogAnswers(tr[k], ws);
    OwedInRun(tr, steps, k + 1, j, ws, seqNo);
    OwedInRun(tr, steps, j, n, ws, seqNo);
    assert id in tr[k].modes;
    RowsNeverReturn(tr, steps, k, j, id);
    hide Linked, LogsGapless, After, Enabled;
    if Committed(tr[k], id, seqNo) {
      PageBrings(tr[k], ws, seqNo);
    }
    if BeyondPage(tr[k], ws, seqNo) {
      LostForGood(tr, steps, k + 1, n, ws, seqNo);
    }
  }

  lemma BacklogAnswers(s: State, ws: Socket)
    requires Enabled(s, Backlog(ws))
    ensures var s' := After(s, Backlog(ws));
            ws in s.clients && ws in s'.clients && SameClient(s.clients[ws], s'.clients[ws]) && s'.rows == s.rows
                && s'.casts == s.casts
  {
    AfterBacklog(s, ws);
  }

  // ---- every client number loses an event in some run ----

  /** One session's log with nothing else going on. */
  ghost predicate OnlyLog(s: State, log: Log) {
    s == State(map[0 := Interactive], map[0 := log], map[], map[], map[], map[], map[], {}, {})
  }

  lemma RunGrows(tr: seq<State>, steps: seq<Step>, step: Step)
    requires Run(tr, steps) && Enabled(tr[|steps|], step)
    ensures Run(tr + [After(tr[|steps|], step)], steps + [step])
  {
    hide After, Enabled, Init;
    var tr', steps' := tr + [After(tr[|steps|], step)], steps + [step];
    forall k {:trigger steps'[k]} | 0 <= k < |steps'|
        ensures Enabled(tr'[k], steps'[k]) && tr'[k + 1] == After(tr'[k], steps'[k]) {
      if k < |steps| {
        assert steps'[k] == steps[k];
      }
    }
  }

  lemma CommitAndSend(s: State, log: Log)
    requires OnlyLog(s, log)
    ensures Enabled(s, Commit(0, "", ""))
    ensures var s' := After(s, Commit(0, "", ""));
            && Enabled(s', Broadcast(0, log.lastEventSeq + 1))
            && OnlyLog(After(s', Broadcast(0, log.lastEventSeq + 1)), Appended(log, "", ""))
  {}

  /** Some run commits so many events, sends them to nobody, and does no more. */
  lemma {:induction false} CommitMany(count: nat) returns (tr: seq<State>, steps: seq<Step>, log: Log)
    ensures Run(tr, steps) && OnlyLog(tr[|steps|], log) && log.lastEventSeq == count
  {
    if count == 0 {
      var start := State(map[], map[], map[], map[], map[], map[], map[], {}, {});
      RunGrows([start], [], CreateRow(0, Interactive));
      tr, steps, log := [start] + [After(start, CreateRow(0, Interactive))], [] + [CreateRow(0, Interactive)], EMPTY;
    } else {
      tr, steps, log := CommitMany(count - 1);
      var s := tr[|steps|];
      CommitAndSend(s, log);
      hide After, Enabled, OnlyLog;
      RunGrows(tr, steps, Commit(0, "", ""));
      tr, steps := tr + [After(s, Commit(0, "", ""))], steps + [Commit(0, "", "")];
      var sent := Broadcast(0, log.lastEventSeq + 1);
      RunGrows(tr, steps, sent);
      tr, steps, log := tr + [After(tr[|steps|], sent)], steps + [sent], Appended(log, "", "");
    }
  }

  /** For every number a client can come back with there is a run in which it
      attaches, is answered and served, and is never sent the event that is one
      past its page. */
  lemma SomeRunLosesOne(since: nat) returns (tr: seq<State>, steps: seq<Step>)
    ensures Run(tr, steps) && |steps| >= 1 && steps[|steps| - 1] == Backlog(0)
    ensures var s := tr[|steps|];
            && 0 in s.clients && s.clients[0].since == since && Reached(s, s.clients[0].session, 0)
            && Committed(s, s.clients[0].session, since + BACKLOG_LIMIT + 1)
            && s.casts == {} && since + BACKLOG_LIMIT + 1 !in s.clients[0].seen
  {
    var log;
    tr, steps, log := CommitMany(since + BACKLOG_LIMIT + 1);
    var s := tr[|steps|];
    var attach := Attach(0, 0, since, 0, None);
    AttachAlone(s, log, since);
    RunGrows(tr, steps, attach);
    tr, steps := tr + [After(s, attach)], steps + [attach];
    s := tr[|steps|];
    RunGrows(tr, steps, Backlog(0));
    LinkedInRun(tr, steps, |steps|);
    LogsInRun(tr, steps, |steps|);
    BacklogAnswers(s, 0);
    PageBrings(s, 0, since + BACKLOG_LIMIT + 1);
    ReachChange(s, Backlog(0), 0);
    tr, steps := tr + [After(s, Backlog(0))], steps + [Backlog(0)];
  }

  lemma AttachAlone(s: State, log: Log, since: nat)
    requires OnlyLog(s, log)
    ensures var attach := Attach(0, 0, since, 0, None);
            && Enabled(s, attach)
            && var s' := After(s, attach);
               && Enabled(s', Backlog(0)) && 0 in s'.clients
                     && s'.clients[0] == Client(0, since, false, false, true, {})
               && s'.rows == map[0 := log] && s'.casts == {} && Reached(s', 0, 0)
  {}

  /** Exactly what a backlog answer sends: the numbers above the client's that are
      committed, five hundred of them at most. */
  lemma BacklogMeans(s: State, ws: Socket, n: nat)
    requires ws in s.clients && !s.clients[ws].answered && s.clients[ws].session in s.rows && LogsGapless(s)
    ensures var c, last := s.clients[ws], s.rows[s.clients[ws].session].lastEventSeq;
            var s' := After(s, Backlog(ws));
            && s' == s.(clients := s'.clients) && s'.clients.Keys == s.clients.Keys
            && s'.clients[ws].answered && (s'.clients[ws].whole <==> last <= c.since + 500)
            && (n in s'.clients[ws].seen <==> n in c.seen || (c.since < n <= last && n <= c.since + 500))
  {
    AfterBacklog(s, ws);
    var c := s.clients[ws];
    var log := s.rows[c.session];
    PageIsConsecutive(log, c.since, BACKLOG_LIMIT);
    var page := EventsSince(log, c.since, BACKLOG_LIMIT);
    if c.since < n <= log.lastEventSeq && n <= c.since + 500 {
      assert page[n - c.since - 1].seqNo == n;
    }
  }
}
