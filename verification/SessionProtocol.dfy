/** Live sessions as interleaved event-loop turns: sockets, replay and broadcast,
    pending requests, eviction and deletion. Each step is one turn. */
module SessionProtocol {
  import opened Options
  import opened PermissionModes
  import opened EventLog

  type SessionId = nat
  type Socket = nat
  type RequestId = nat
  type TimerId = nat
  type ObjectId = nat

  /** One `LiveSession` object; a session may have several over time. */
  datatype Live = Live(session: SessionId, mode: Mode, sockets: set<Socket>, evictionTimer: Option<TimerId>)

  /** A bridge promise: whether its map still holds it, whether its timer is still
      to fire, and what it settled to. */
  datatype Request = Request(owner: ObjectId, kind: Kind, pending: bool, armed: bool, outcome: Option<Outcome>)

  /** A connection: the numbers it has been sent, whether its backlog query has
      been answered, and whether that page held all there was. */
  datatype Client = Client(session: SessionId, since: nat, answered: bool, whole: bool, open: bool, seen: set<nat>)

  /** `modes` records what each session was created with; nothing changes it.
      `casts` are committed events whose fan-out has not run yet, `deleting` the
      sessions `deleteSession` has been called on. */
  datatype State = State(
    modes: map<SessionId, Mode>, rows: map<SessionId, Log>, live: map<SessionId, ObjectId>,
    objects: map<ObjectId, Live>,
    timers: map<TimerId, SessionId>, requests: map<RequestId, Request>, clients: map<Socket, Client>,
    casts: set<(SessionId, nat)>, deleting: set<SessionId>)

  datatype Step =
    | CreateRow(id: SessionId, mode: Mode)
    | Attach(id: SessionId, ws: Socket, since: nat, made: ObjectId, victim: Option<SessionId>)
    | Backlog(ws: Socket)
    | CloseSocket(ws: Socket)
    | Detach(ws: Socket, timer: TimerId)
    | Commit(id: SessionId, name: string, data: string)
    | Broadcast(id: SessionId, seqNo: nat)
    | Ask(owner: ObjectId, kind: Kind, request: RequestId)
    | Respond(id: SessionId, request: RequestId, answer: Answer)
    | Expire(request: RequestId)
    | FireEviction(timer: TimerId)
    | DeleteStart(id: SessionId)
    | DeleteLive(id: SessionId)
    | DeleteRow(id: SessionId)

  const MAX_LIVE := 8
  const BACKLOG_LIMIT := 500

  // ---- the turns ----

  predicate Idle(s: State, id: SessionId) {
    id in s.live && s.live[id] in s.objects && s.objects[s.live[id]].sockets == {} && s.objects[s.live[id]].mode != Auto
  }

  /** `evict`: by session id, and only without a socket. */
  function Evicted(s: State, id: SessionId): (s': State)
    ensures s' == s.(live := s'.live)
  {
    if id in s.live && s.live[id] in s.objects && s.objects[s.live[id]].sockets == {} then s.(live := s.live - {id})
        else s
  }

  /** At the limit some idle session must go, if there is one. */
  predicate VictimFits(s: State, victim: Option<SessionId>) {
    if |s.live| >= MAX_LIVE then
      match victim case Some(v) => Idle(s, v) case None => forall id | id in s.live :: !Idle(s, id)
    else victim == None
  }

  /** `ensureLive`: the object a session's attach finds or makes. */
  function MadeLive(s: State, id: SessionId, made: ObjectId, victim: Option<SessionId>): (s': State)
    ensures s' == s.(live := s'.live, objects := s'.objects)
  {
    if id in s.live then s
    else
      var room := if victim.Some? then Evicted(s, victim.value) else s;
      if id in room.rows && id in room.modes then Made(room, id, made) else room
  }

  function Made(s: State, id: SessionId, made: ObjectId): (s': State)
    requires id in s.modes
    ensures s' == s.(live := s'.live, objects := s'.objects)
  {
    s.(live := s.live[id := made], objects := s.objects[made := Live(id, s.modes[id], {}, None)])
  }

  /** `attach` up to the backlog query. */
  function Joined(s: State, id: SessionId, ws: Socket, since: nat): (s': State)
    ensures s' == s.(objects := s'.objects, timers := s'.timers, clients := s'.clients)
  {
    if id in s.live && s.live[id] in s.objects then
      var o := s.live[id];
      var l := s.objects[o];
      s.(objects := s.objects[o := l.(sockets := l.sockets + {ws}, evictionTimer := None)],
         timers := if l.evictionTimer.Some? then s.timers - {l.evictionTimer.value} else s.timers,
         clients := s.clients[ws := Client(id, since, false, false, true, {})])
    else s
  }

  function Numbers(page: seq<LogRow>): set<nat> { set i | 0 <= i < |page| :: page[i].seqNo }

  function Replayed(s: State, ws: Socket): (s': State)
    requires ws in s.clients
    ensures s' == s.(clients := s'.clients)
  {
    var c := s.clients[ws];
    var log := if c.session in s.rows then s.rows[c.session] else EMPTY;
    s.(clients := s.clients[ws := c.(
      answered := true,
      whole := log.lastEventSeq <= c.since + BACKLOG_LIMIT,
      seen := c.seen + Numbers(EventsSince(log, c.since, BACKLOG_LIMIT)))])
  }

  /** `detach`: the last socket of a session that is not auto arms a timer. */
  function Detached(s: State, ws: Socket, timer: TimerId): (s': State)
    requires ws in s.clients
    ensures s' == s.(objects := s'.objects, timers := s'.timers)
  {
    var id := s.clients[ws].session;
    if id in s.live && s.live[id] in s.objects then
      var o := s.live[id];
      var l := s.objects[o];
      var rest := l.sockets - {ws};
      if rest == {} && l.mode != Auto
      then s.(objects := s.objects[o := l.(sockets := rest, evictionTimer := Some(timer))],
              timers := s.timers[timer := id])
      else s.(objects := s.objects[o := l.(sockets := rest)])
    else s
  }

  /** The fan-out of one event: every open socket of the live session gets it. */
  predicate Reached(s: State, id: SessionId, ws: Socket) {
    && ws in s.clients && s.clients[ws].open
    && id in s.live && s.live[id] in s.objects && ws in s.objects[s.live[id]].sockets
  }

  function FannedOut(s: State, id: SessionId, seqNo: nat): (s': State)
    ensures s' == s.(casts := s.casts - {(id, seqNo)}, clients := s'.clients)
  {
    s.(casts := s.casts - {(id, seqNo)},
       clients := map ws | ws in s.clients ::
         if Reached(s, id, ws) then s.clients[ws].(seen := s.clients[ws].seen + {seqNo}) else s.clients[ws])
  }

  /** A promise settles once; later calls of its `resolve` do nothing. */
  function Settled(r: Request, outcome: Outcome): Request {
    if r.outcome.None? then r.(outcome := Some(outcome)) else r
  }

  /** The pending map of the live object that a client message is looked up in. */
  predicate Answers(s: State, id: SessionId, request: RequestId, answer: Answer) {
    && id in s.live && request in s.requests
    && s.requests[request].owner == s.live[id] && s.requests[request].kind == KindOf(answer)
          && s.requests[request].pending
  }

  function Responded(s: State, id: SessionId, request: RequestId, answer: Answer): (s': State)
    ensures s' == s.(requests := s'.requests) && s'.requests.Keys == s.requests.Keys
  {
    if Answers(s, id, request, answer)
    then s.(requests := s.requests[request := Settled(s.requests[request], Answered(answer)).(pending := false)])
    else s
  }

  function Expired(s: State, request: RequestId): (s': State)
    requires request in s.requests
    ensures s' == s.(requests := s'.requests) && s'.requests.Keys == s.requests.Keys
  {
    var r := s.requests[request].(armed := false);
    s.(requests := s.requests[request := if r.pending then Settled(r, TimedOut).(pending := false) else r])
  }

  /** The first turn of `deleteSession`: everything still pending is resolved,
      and stays in its map. */
  function Abandoned(s: State, id: SessionId): (s': State)
    ensures s' == s.(deleting := s.deleting + {id}, requests := s'.requests) && s'.requests.Keys == s.requests.Keys
  {
    s.(deleting := s.deleting + {id},
       requests := map q | q in s.requests ::
         if id in s.live && s.requests[q].owner == s.live[id] && s.requests[q].pending
         then Settled(s.requests[q], TimedOut) else s.requests[q])
  }

  predicate Enabled(s: State, step: Step) {
    match step
    case CreateRow(id, _) => id !in s.modes
    case Attach(id, ws, _, made, victim) =>
      ws !in s.clients && (id !in s.live ==> made !in s.objects && VictimFits(s, victim))
    case Backlog(ws) => ws in s.clients && !s.clients[ws].answered
    case CloseSocket(ws) => ws in s.clients
    case Detach(ws, timer) => ws in s.clients && s.clients[ws].answered && timer !in s.timers
    case Commit(id, _, _) => id in s.rows
    case Broadcast(id, seqNo) => (id, seqNo) in s.casts
    case Ask(owner, _, request) => owner in s.objects && request !in s.requests
    case Respond(id, _, _) => id in s.live
    case Expire(request) => request in s.requests && s.requests[request].armed
    case FireEviction(timer) => timer in s.timers
    case DeleteStart(_) => true
    case DeleteLive(id) => id in s.deleting
    case DeleteRow(id) => id in s.deleting
  }

  function After(s: State, step: Step): State
    requires Enabled(s, step)
  {
    match step
    case CreateRow(id, mode) => s.(modes := s.modes[id := mode], rows := s.rows[id := EMPTY])
    case Attach(id, ws, since, made, victim) => Joined(MadeLive(s, id, made, victim), id, ws, since)
    case Backlog(ws) => Replayed(s, ws)
    case CloseSocket(ws) => s.(clients := s.clients[ws := s.clients[ws].(open := false)])
    case Detach(ws, timer) => Detached(s, ws, timer)
    case Commit(id, name, data) =>
      var log := Appended(s.rows[id], name, data);
      s.(rows := s.rows[id := log], casts := s.casts + {(id, log.lastEventSeq)})
    case Broadcast(id, seqNo) => FannedOut(s, id, seqNo)
    case Ask(owner, kind, request) => s.(requests := s.requests[request := Request(owner, kind, true, true, None)])
    case Respond(id, request, answer) => Responded(s, id, request, answer)
    case Expire(request) => Expired(s, request)
    case FireEviction(timer) => Evicted(s.(timers := s.timers - {timer}), s.timers[timer])
    case DeleteStart(id) => Abandoned(s, id)
    case DeleteLive(id) => s.(live := s.live - {id})
    case DeleteRow(id) => s.(rows := s.rows - {id})
  }

  predicate Init(s: State) {
    s == State(map[], map[], map[], map[], map[], map[], map[], {}, {})
  }

  ghost predicate Run(tr: seq<State>, steps: seq<Step>) {
    && |tr| == |steps| + 1
    && Init(tr[0])
    && forall k {:trigger steps[k]} | 0 <= k < |steps| ::
          Enabled(tr[k], steps[k]) && tr[k + 1] == After(tr[k], steps[k])
  }

  // ---- objects, modes and timers ----

  /** Live sessions know their objects; objects and timers keep the mode their
      session was created with, and no timer is ever armed for an auto session. */
  ghost predicate Linked(s: State) {
    && (forall id | id in s.live :: s.live[id] in s.objects && s.objects[s.live[id]].session == id)
    && (forall o | o in s.objects ::
          s.objects[o].session in s.modes && s.objects[o].mode == s.modes[s.objects[o].session])
    && (forall t | t in s.timers :: s.timers[t] in s.modes && s.modes[s.timers[t]] != Auto)
    && (forall id | id in s.rows :: id in s.modes)
    && (forall o, ws | o in s.objects && ws in s.objects[o].sockets ::
          ws in s.clients && s.clients[ws].session == s.objects[o].session)
    && (forall ws | ws in s.clients :: s.clients[ws].session in s.modes)
  }

  lemma JoinedLinked(s: State, id: SessionId, ws: Socket, since: nat)
    requires Linked(s) && ws !in s.clients
    ensures Linked(Joined(s, id, ws, since))
  {}

  lemma EvictedLinked(s: State, id: SessionId)
    requires Linked(s)
    ensures Linked(Evicted(s, id))
  {}

  lemma MadeLinked(s: State, id: SessionId, made: ObjectId)
    requires Linked(s) && made !in s.objects && id in s.modes
    ensures Linked(Made(s, id, made))
  {}

  lemma MadeLiveLinked(s: State, id: SessionId, made: ObjectId, victim: Option<SessionId>)
    requires Linked(s) && (id !in s.live ==> made !in s.objects)
    ensures Linked(MadeLive(s, id, made, victim))
  {
    hide Linked, Made, Evicted;
    if id !in s.live {
      var room := if victim.Some? then Evicted(s, victim.value) else s;
      if victim.Some? {
        EvictedLinked(s, victim.value);
      }
      if id in room.rows && id in room.modes {
        MadeLinked(room, id, made);
      }
    }
  }

  lemma ObjectLinked(s: State, o: ObjectId, l: Live)
    requires Linked(s) && o in s.objects && l.session == s.objects[o].session && l.mode == s.objects[o].mode
    requires l.sockets <= s.objects[o].sockets
    ensures Linked(s.(objects := s.objects[o := l]))
  {}

  lemma TimerLinked(s: State, timer: TimerId, id: SessionId)
    requires Linked(s) && id in s.modes && s.modes[id] != Auto
    ensures Linked(s.(timers := s.timers[timer := id]))
  {}

  lemma DetachedLinked(s: State, ws: Socket, timer: TimerId)
    requires Linked(s) && ws in s.clients
    ensures Linked(Detached(s, ws, timer))
  {
    var id := s.clients[ws].session;
    if id in s.live && s.live[id] in s.objects {
      var o := s.live[id];
      var rest := s.objects[o].sockets - {ws};
      assert s.objects[o].session == id && id in s.modes && s.objects[o].mode == s.modes[id];
      hide Linked;
      if rest == {} && s.objects[o].mode != Auto {
        ObjectLinked(s, o, s.objects[o].(sockets := rest, evictionTimer := Some(timer)));
        var armed := s.objects[o].(sockets := rest, evictionTimer := Some(timer));
        TimerLinked(s.(objects := s.objects[o := armed]), timer, id);
      } else {
        ObjectLinked(s, o, s.objects[o].(sockets := rest));
      }
    }
  }

  lemma FannedOutLinked(s: State, id: SessionId, seqNo: nat)
    requires Linked(s)
    ensures Linked(FannedOut(s, id, seqNo))
  {}

  lemma ClientsLinked(s: State, step: Step)
    requires Linked(s) && Enabled(s, step) && (step.Backlog? || step.CloseSocket? || step.CreateRow? || step.Commit?)
    ensures Linked(After(s, step))
  {
    hide Appended, EventsSince, Numbers;
  }

  lemma SameLinked(s: State, s': State)
    requires Linked(s)
    requires s'.live == s.live && s'.objects == s.objects && s'.timers == s.timers
    requires s'.rows == s.rows && s'.modes == s.modes && s'.clients == s.clients
    ensures Linked(s')
  {}

  lemma RequestsLinked(s: State, step: Step)
    requires Linked(s) && Enabled(s, step)
    requires step.Ask? || step.Respond? || step.Expire? || step.DeleteStart?
    ensures Linked(After(s, step))
  {
    hide Linked, Responded, Expired, Abandoned;
    SameLinked(s, After(s, step));
  }

  lemma FewerLinked(s: State, id: SessionId)
    requires Linked(s)
    ensures Linked(s.(live := s.live - {id})) && Linked(s.(rows := s.rows - {id}))
  {}

  lemma LinkedKept(s: State, step: Step)
    requires Linked(s) && Enabled(s, step)
    ensures Linked(After(s, step))
  {
    hide Linked, Joined, MadeLive, Detached, FannedOut, Evicted, VictimFits;
    match step {
      case Attach(id, ws, since, made, victim) =>
        MadeLiveLinked(s, id, made, victim);
        JoinedLinked(MadeLive(s, id, made, victim), id, ws, since);
      case Detach(ws, timer) => DetachedLinked(s, ws, timer);
      case Broadcast(id, seqNo) => FannedOutLinked(s, id, seqNo);
      case FireEviction(timer) =>
        TimerGoneLinked(s, timer);
        EvictedLinked(s.(timers := s.timers - {timer}), s.timers[timer]);
      case DeleteLive(id) => FewerLinked(s, id);
      case DeleteRow(id) => FewerLinked(s, id);
      case _ =>
        if step.Backlog? || step.CloseSocket? || step.CreateRow? || step.Commit? {
          ClientsLinked(s, step);
        } else {
          RequestsLinked(s, step);
        }
    }
  }

  lemma TimerGoneLinked(s: State, timer: TimerId)
    requires Linked(s)
    ensures Linked(s.(timers := s.timers - {timer}))
  {}

  lemma {:induction false} LinkedInRun(tr: seq<State>, steps: seq<Step>, n: nat)
    requires Run(tr, steps) && n < |tr|
    ensures Linked(tr[n])
  {
    if n > 0 {
      LinkedInRun(tr, steps, n - 1);
      LinkedKept(tr[n - 1], steps[n - 1]);
    }
  }

  lemma ModesKept(s: State, step: Step)
    requires Enabled(s, step)
    ensures forall id | id in s.modes :: id in After(s, step).modes && After(s, step).modes[id] == s.modes[id]
  {
    hide MadeLive, Joined, Detached, FannedOut, Evicted, Replayed, Responded, Expired, Abandoned, VictimFits;
  }

  /** A session keeps the mode it was created with in every later state. */
  lemma {:induction false} ModesInRun(tr: seq<State>, steps: seq<Step>, m: nat, n: nat)
    requires Run(tr, steps) && m <= n < |tr|
    ensures forall id | id in tr[m].modes :: id in tr[n].modes && tr[n].modes[id] == tr[m].modes[id]
    decreases n
  {
    if m < n {
      ModesInRun(tr, steps, m, n - 1);
      hide After, Enabled, Init;
      ModesKept(tr[n - 1], steps[n - 1]);
    }
  }

  // ---- what single turns do to timers and the live map ----

  /** Detaching a socket takes it out; if it was the last one of a session that is
      not auto, the timer is armed for that session, and otherwise no timer is. */
  lemma DetachMeans(s: State, ws: Socket, timer: TimerId)
    requires Linked(s) && Enabled(s, Detach(ws, timer)) && s.clients[ws].session in s.live
    ensures var id := s.clients[ws].session;
            var o := s.live[id];
            var s' := After(s, Detach(ws, timer));
            && o in s.objects && o in s'.objects && s'.live == s.live && s'.clients == s.clients
            && s'.objects[o].sockets == s.objects[o].sockets - {ws}
            && (forall p | p in s.objects && p != o :: p in s'.objects && s'.objects[p] == s.objects[p])
            && if s.objects[o].sockets <= {ws} && s.modes[id] != Auto
               then s'.timers == s.timers[timer := id] && s'.objects[o].evictionTimer == Some(timer)
               else s'.timers == s.timers && s'.objects[o].evictionTimer == s.objects[o].evictionTimer
  {}

  /** A timer that fires takes its session out of the live map exactly when nobody is
      attached to it, and is gone. */
  lemma FireMeans(s: State, timer: TimerId)
    requires Linked(s) && timer in s.timers
    ensures var id := s.timers[timer];
            var s' := After(s, FireEviction(timer));
            && s'.timers == s.timers - {timer} && s'.objects == s.objects
            && s'.live == if id in s.live && s.objects[s.live[id]].sockets == {} then s.live - {id} else s.live
  {}

  /** Attaching to a live session adds the socket and cancels the armed timer. */
  lemma AttachMeans(s: State, id: SessionId, ws: Socket, since: nat, made: ObjectId)
    requires Linked(s) && id in s.live && ws !in s.clients
    ensures Enabled(s, Attach(id, ws, since, made, None))
    ensures var o := s.live[id];
            var s' := After(s, Attach(id, ws, since, made, None));
            && s'.live == s.live && o in s'.objects
            && s'.objects[o].sockets == s.objects[o].sockets + {ws} && s'.objects[o].evictionTimer == None
            && s'.timers
                  == (if s.objects[o].evictionTimer == None then s.timers
                      else s.timers - {s.objects[o].evictionTimer.value})
            && s'.clients == s.clients[ws := Client(id, since, false, false, true, {})]
  {}

  /** Attaching to a session that is not live makes a new object for it, with room
      made by one idle session at the limit of eight. */
  lemma AttachMakes(s: State, id: SessionId, ws: Socket, since: nat, made: ObjectId, victim: Option<SessionId>)
    requires Linked(s) && id !in s.live && id in s.rows && Enabled(s, Attach(id, ws, since, made, victim))
    ensures |s.live| < 8 ==> victim == None
    ensures |s.live| >= 8 && victim == None ==>
              forall v | v in s.live :: s.objects[s.live[v]].sockets != {} || s.objects[s.live[v]].mode == Auto
    ensures victim.Some? ==>
              var v := victim.value;
              |s.live| >= 8 && v in s.live && s.objects[s.live[v]].sockets == {} && s.objects[s.live[v]].mode != Auto
    ensures var s' := After(s, Attach(id, ws, since, made, victim));
            && s'.live == (if victim == None then s.live else s.live - {victim.value})[id := made]
            && s'.objects == s.objects[made := Live(id, s.modes[id], {ws}, None)]
            && s'.clients == s.clients[ws := Client(id, since, false, false, true, {})]
            && s'.timers == s.timers
  {
    VictimMeans(s, victim);
    if victim.Some? {
      EvictedMeans(s, victim.value);
    }
    hide Idle, VictimFits;
    var room := if victim.Some? then Evicted(s, victim.value) else s;
    assert MadeLive(s, id, made, victim) == Made(room, id, made);
    JoinedNew(room, id, ws, since, made);
  }

  lemma VictimMeans(s: State, victim: Option<SessionId>)
    requires Linked(s) && VictimFits(s, victim)
    ensures |s.live| < 8 ==> victim == None
    ensures |s.live| >= 8 && victim == None ==>
              forall v | v in s.live :: s.objects[s.live[v]].sockets != {} || s.objects[s.live[v]].mode == Auto
    ensures victim.Some? ==>
              var v := victim.value;
              |s.live| >= 8 && v in s.live && s.objects[s.live[v]].sockets == {} && s.objects[s.live[v]].mode != Auto
  {
    assert |s.live| >= 8 && victim == None ==> forall v | v in s.live :: !Idle(s, v);
  }

  lemma EvictedMeans(s: State, v: SessionId)
    requires v in s.live && s.live[v] in s.objects && s.objects[s.live[v]].sockets == {}
    ensures Evicted(s, v) == s.(live := s.live - {v})
  {}

  lemma JoinedNew(s: State, id: SessionId, ws: Socket, since: nat, made: ObjectId)
    requires id in s.modes
    ensures Joined(Made(s, id, made), id, ws, since)
         == s.(live := s.live[id := made],
               objects := s.objects[made := Live(id, s.modes[id], {ws}, None)],
               clients := s.clients[ws := Client(id, since, false, false, true, {})])
  {
    var empty, joined := Live(id, s.modes[id], {}, None), Live(id, s.modes[id], {ws}, None);
    assert empty.(sockets := empty.sockets + {ws}, evictionTimer := None) == joined;
    assert s.objects[made := empty][made := joined] == s.objects[made := joined];
  }

  /** A deletion resolves what is pending to silence, then drops the live object, then
      the row. */
  lemma DeleteMeans(s: State, id: SessionId)
    ensures Enabled(s, DeleteStart(id)) && id in After(s, DeleteStart(id)).deleting
    ensures forall q | q in s.requests :: q in After(s, DeleteStart(id)).requests
    ensures forall q | q in s.requests && !(id in s.live && s.requests[q].owner == s.live[id]) ::
              After(s, DeleteStart(id)).requests[q] == s.requests[q]
    ensures id in s.deleting ==> After(s, DeleteLive(id)) == s.(live := s.live - {id})
    ensures id in s.deleting ==> After(s, DeleteRow(id)) == s.(rows := s.rows - {id})
  {}

  /** What may happen at any moment: a socket closes or, once answered, is detached, an
      event is committed and then fanned out, a live or a past object asks, a client
      answers, an armed timer fires, a deletion starts and goes on. */
  lemma TurnsArePossible(s: State, id: SessionId, ws: Socket, n: nat, answer: Answer, kind: Kind, text: string)
    ensures id !in s.modes ==> Enabled(s, CreateRow(id, Interactive))
    ensures ws in s.clients ==> Enabled(s, CloseSocket(ws)) && (Enabled(s, Backlog(ws)) <==> !s.clients[ws].answered)
    ensures ws in s.clients && s.clients[ws].answered && n !in s.timers ==> Enabled(s, Detach(ws, n))
    ensures id in s.rows ==>
              && Enabled(s, Commit(id, text, text))
              && Enabled(After(s, Commit(id, text, text)), Broadcast(id, s.rows[id].lastEventSeq + 1))
    ensures n in s.objects && ws !in s.requests ==>
              && Enabled(s, Ask(n, kind, ws))
              && After(s, Ask(n, kind, ws)) == s.(requests := s.requests[ws := Request(n, kind, true, true, None)])
    ensures id in s.live ==> Enabled(s, Respond(id, n, answer))
    ensures n in s.requests && s.requests[n].armed ==> Enabled(s, Expire(n))
    ensures n in s.timers ==> Enabled(s, FireEviction(n))
    ensures Enabled(s, DeleteStart(id))
    ensures Enabled(After(s, DeleteStart(id)), DeleteLive(id)) && Enabled(After(s, DeleteStart(id)), DeleteRow(id))
  {}
}
