/** The manager object: its maps changed in place, turn by turn, against the
    protocol's steps. */
module Sessions {
  import opened Options
  import opened PermissionModes
  import opened EventLog
  import opened SessionProtocol

  class SessionManager {
    var modes: map<SessionId, Mode>
    var rows: map<SessionId, Log>
    var live: map<SessionId, ObjectId>
    var objects: map<ObjectId, Live>
    var timers: map<TimerId, SessionId>
    var requests: map<RequestId, Request>
    var clients: map<Socket, Client>
    var casts: set<(SessionId, nat)>
    var deleting: set<SessionId>

    constructor ()
      ensures Init(State())
    {
      modes, rows, live, objects, timers, requests, clients, casts, deleting :=
          map[], map[], map[], map[], map[], map[], map[], {}, {};
    }

    function State(): State
      reads this
    {
      SessionProtocol.State.State(modes, rows, live, objects, timers, requests, clients, casts, deleting)
    }

    /** Some turn of the protocol, from the state on entry. */
    twostate predicate Turn(step: Step)
      reads this
    {
      Enabled(old(State()), step) && State() == After(old(State()), step)
    }

    method Evict(id: SessionId)
      requires Linked(State())
      modifies this`live
      ensures State() == Evicted(old(State()), id)
    {
      if id !in live || objects[live[id]].sockets != {} {
        return;
      }
      live := live - {id};
    }

    /** The first idle session that is not auto, if any. */
    method EvictLeastRecentlyUsedIdle() returns (victim: Option<SessionId>)
      requires Linked(State())
      modifies this`live
      ensures match victim
              case Some(v) => old(Idle(State(), v)) && State() == Evicted(old(State()), v)
              case None => State() == old(State()) && forall id | id in live :: !Idle(State(), id)
    {
      var rest := live.Keys;
      while rest != {}
        invariant rest <= live.Keys && State() == old(State())
        invariant forall id | id in live && id !in rest :: !Idle(State(), id)
        decreases |rest|
      {
        var id :| id in rest;
        rest := rest - {id};
        if objects[live[id]].sockets == {} && objects[live[id]].mode != Auto {
          Evict(id);
          return Some(id);
        }
      }
      victim := None;
    }

    method EnsureLive(id: SessionId, made: ObjectId) returns (victim: Option<SessionId>)
      requires Linked(State()) && made !in objects
      modifies this`live, this`objects
      ensures id !in old(live) ==> VictimFits(old(State()), victim)
      ensures State() == MadeLive(old(State()), id, made, victim) && Linked(State())
    {
      MadeLiveLinked(State(), id, made, None);
      LinkedRows(State());
      hide Linked;
      victim := None;
      if id in live {
        return;
      }
      if |live| >= MAX_LIVE {
        victim := EvictLeastRecentlyUsedIdle();
      }
      MadeLiveLinked(old(State()), id, made, victim);
      if id !in rows {
        return;
      }
      objects := objects[made := Live(id, modes[id], {}, None)];
      live := live[id := made];
    }

    /** The socket joins a live session and calls off its eviction. */
    method Join(id: SessionId, ws: Socket, since: nat)
      requires id in live ==> live[id] in objects
      modifies this`objects, this`timers, this`clients
      ensures State() == Joined(old(State()), id, ws, since)
    {
      if id in live {
        var o := live[id];
        var l := objects[o];
        if l.evictionTimer.Some? {
          timers := timers - {l.evictionTimer.value};
        }
        objects := objects[o := l.(sockets := l.sockets + {ws}, evictionTimer := None)];
        clients := clients[ws := Client(id, since, false, false, true, {})];
      }
    }

    /** Up to the backlog query. */
    method Attach(id: SessionId, ws: Socket, since: nat, made: ObjectId) returns (victim: Option<SessionId>)
      requires Linked(State()) && ws !in clients && made !in objects
      modifies this`live, this`objects, this`timers, this`clients
      ensures Turn(SessionProtocol.Attach(id, ws, since, made, victim))
    {
      victim := EnsureLive(id, made);
      LinkedLive(State());
      hide Linked, MadeLive, VictimFits, Joined;
      Join(id, ws, since);
    }

    method GetEventsSince(id: SessionId, since: nat) returns (page: seq<LogRow>)
      ensures page == EventsSince(if id in rows then rows[id] else EMPTY, since, BACKLOG_LIMIT)
    {
      page := if id in rows then EventsSince(rows[id], since, BACKLOG_LIMIT) else [];
    }

    /** The connection handler's answer to a new socket. */
    method SendBacklog(ws: Socket)
      requires ws in clients && !clients[ws].answered
      modifies this`clients
      ensures Turn(Backlog(ws))
    {
      var c := clients[ws];
      var page := GetEventsSince(c.session, c.since);
      ghost var log := if c.session in rows then rows[c.session] else EMPTY;
      var seen := c.seen;
      for i := 0 to |page|
        invariant seen == c.seen + set j | 0 <= j < i :: page[j].seqNo
      {
        seen := seen + {page[i].seqNo};
      }
      var whole := c.session !in rows || rows[c.session].lastEventSeq <= c.since + BACKLOG_LIMIT;
      clients := clients[ws := c.(answered := true, whole := whole, seen := seen)];
    }

    method Detach(ws: Socket, timer: TimerId)
      requires Linked(State()) && ws in clients && clients[ws].answered && timer !in timers
      modifies this`objects, this`timers
      ensures Turn(SessionProtocol.Detach(ws, timer))
    {
      var id := clients[ws].session;
      if id !in live {
        return;
      }
      var o := live[id];
      var l := objects[o];
      var rest := l.sockets - {ws};
      objects := objects[o := l.(sockets := rest)];
      if rest == {} && l.mode != Auto {
        objects := objects[o := l.(sockets := rest, evictionTimer := Some(timer))];
        timers := timers[timer := id];
      }
    }

    /** `permission.respond`, `plan.respond` and `ask_user.respond`. */
    method HandleAnswer(id: SessionId, request: RequestId, answer: Answer) returns (ok: bool)
      modifies this`requests
      ensures ok <==> id in live
      ensures ok ==> Turn(Respond(id, request, answer))
      ensures !ok ==> State() == old(State())
    {
      if id !in live {
        return false;
      }
      if request in requests {
        var r := requests[request];
        if r.owner == live[id] && r.kind == KindOf(answer) && r.pending {
          if r.outcome.None? {
            r := r.(outcome := Some(Answered(answer)));
          }
          requests := requests[request := r.(pending := false)];
        }
      }
      ok := true;
    }

    method RequestTimer(request: RequestId)
      requires request in requests && requests[request].armed
      modifies this`requests
      ensures Turn(Expire(request))
    {
      var r := requests[request].(armed := false);
      if r.pending {
        r := r.(pending := false);
        if r.outcome.None? {
          r := r.(outcome := Some(TimedOut));
        }
      }
      requests := requests[request := r];
    }

    /** The three loops over an object's pending maps. */
    method TimeOutPending(owner: ObjectId)
      modifies this`requests
      ensures requests == map q | q in old(requests) ::
                if old(requests)[q].owner == owner && old(requests)[q].pending
                then Settled(old(requests)[q], TimedOut) else old(requests)[q]
    {
      ghost var before := requests;
      var rest := requests.Keys;
      while rest != {}
        invariant rest <= before.Keys == requests.Keys
        invariant forall q | q in requests ::
                    requests[q] == if q !in rest && before[q].owner == owner && before[q].pending
                                   then Settled(before[q], TimedOut) else before[q]
        decreases |rest|
      {
        var q :| q in rest;
        rest := rest - {q};
        var r := requests[q];
        if r.owner == owner && r.pending && r.outcome.None? {
          requests := requests[q := r.(outcome := Some(TimedOut))];
        }
      }
    }

    /** The first turn of `deleteSession`. */
    method ResolvePending(id: SessionId)
      modifies this`requests, this`deleting
      ensures Turn(DeleteStart(id))
    {
      deleting := deleting + {id};
      if id in live {
        TimeOutPending(live[id]);
      }
      assert requests == Abandoned(old(State()), id).requests;
    }

    method EvictionTimer(timer: TimerId)
      requires Linked(State()) && timer in timers
      modifies this`timers, this`live
      ensures Turn(FireEviction(timer))
    {
      var id := timers[timer];
      TimerGoneLinked(State(), timer);
      timers := timers - {timer};
      Evict(id);
    }

    /** `appendEvent`: one transaction, then its fan-out is due. */
    method AppendEvent(id: SessionId, name: string, data: string) returns (seqNo: nat)
      requires id in rows
      modifies this`rows, this`casts
      ensures Turn(Commit(id, name, data)) && seqNo == old(rows[id].lastEventSeq) + 1 == rows[id].lastEventSeq
    {
      var log := rows[id];
      seqNo := log.lastEventSeq + 1;
      rows := rows[id := Log(seqNo, log.rows + [LogRow(seqNo, name, data)])];
      casts := casts + {(id, seqNo)};
    }

    /** The loop over a session's sockets. */
    method SendTo(sockets: set<Socket>, seqNo: nat)
      modifies this`clients
      ensures clients == SentTo(old(clients), sockets, seqNo)
    {
      ghost var before := clients;
      var rest := sockets;
      while rest != {}
        invariant rest <= sockets && clients.Keys == before.Keys
        invariant forall ws | ws in clients ::
                    clients[ws] == if ws in sockets && ws !in rest && before[ws].open
                                   then before[ws].(seen := before[ws].seen + {seqNo}) else before[ws]
        decreases |rest|
      {
        var ws :| ws in rest;
        rest := rest - {ws};
        if ws in clients && clients[ws].open {
          clients := clients[ws := clients[ws].(seen := clients[ws].seen + {seqNo})];
        }
      }
    }

    /** The fan-out of `broadcastAppEvent`. */
    method FanOut(id: SessionId, seqNo: nat)
      requires Linked(State()) && (id, seqNo) in casts
      modifies this`clients, this`casts
      ensures Turn(Broadcast(id, seqNo))
    {
      LinkedLive(State());
      SentIsFannedOut(State(), id, seqNo);
      hide Linked, FannedOut, SentTo;
      casts := casts - {(id, seqNo)};
      if id in live {
        SendTo(objects[live[id]].sockets, seqNo);
      }
    }
  }

  function SentTo(clients: map<Socket, Client>, sockets: set<Socket>, seqNo: nat): map<Socket, Client> {
    map ws | ws in clients ::
      if ws in sockets && clients[ws].open then clients[ws].(seen := clients[ws].seen + {seqNo}) else clients[ws]
  }

  lemma SentIsFannedOut(s: State, id: SessionId, seqNo: nat)
    requires id in s.live ==> s.live[id] in s.objects
    ensures FannedOut(s, id, seqNo).clients == if id in s.live
            then SentTo(s.clients, s.objects[s.live[id]].sockets, seqNo) else s.clients
  {}

  lemma LinkedLive(s: State)
    requires Linked(s)
    ensures forall id | id in s.live :: s.live[id] in s.objects
  {}

  lemma LinkedRows(s: State)
    requires Linked(s)
    ensures forall id | id in s.rows :: id in s.modes
  {}
}
