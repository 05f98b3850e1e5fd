/**
 * The server's session registry (`sessionData` in server.js) and the
 * per-connection bookkeeping around it: which session a connection has
 * joined, the connections active in each session, and all connections.
 * Access codes, session ids and timestamps are parameters here; the
 * transport delivers the `Emit` values the methods return.
 */
module Sessions {
  import opened Wrappers
  import opened JsValues
  import opened Seqs
  import opened Document
  import opened Protocol
  import SB = ServerBoard

  /** One session: its access code, its creation time, its active connections and its own board. */
  class Session {
    const code: string
    const created: string
    var activeUsers: seq<string>
    const board: Board

    constructor (code: string, created: string, board: Board)
      ensures this.code == code && this.created == created && this.board == board
      ensures activeUsers == []
    {
      this.code := code;
      this.created := created;
      this.board := board;
      activeUsers := [];
    }
  }

  /** The answer to a join-by-code request. */
  datatype JoinResult =
    | Joined(sessionId: string, board: BoardData)
    | CodeRequired   // 400 'Access code required'
    | InvalidCode    // 404 'Invalid access code'

  /**
   * The first key of `keys`, in order, whose session has access code `code`.
   * This is `Object.entries(sessions).find(...)` with the keys in insertion order.
   */
  function FirstWithCode(keys: seq<string>, sessions: map<string, Session>, code: string): (r: Option<string>)
    ensures r.Some? ==> r.value in keys && r.value in sessions && sessions[r.value].code == code
    ensures r.Some? ==> exists j :: 0 <= j < |keys| && keys[j] == r.value
                          && forall i :: 0 <= i < j && keys[i] in sessions ==> sessions[keys[i]].code != code
    ensures r.None? <==> forall k :: k in keys && k in sessions ==> sessions[k].code != code
  {
    if keys == [] then None
    else if keys[0] in sessions && sessions[keys[0]].code == code then Some(keys[0])
    else
      var r := FirstWithCode(keys[1..], sessions, code);
      if r.Some? then
        assert forall i :: 1 <= i < |keys| ==> keys[i] == keys[1..][i - 1];
        r
      else r
  }

  class SessionStore {
    var sessions: map<string, Session>
    /** The keys of `sessions` in creation order. */
    var order: seq<string>
    var activeCodes: seq<string>
    /** The board every new session copies (`boardData`, from the board file or the default). */
    const template: Board
    /** `socket.sessionId` of every connection that has joined a session. */
    var joined: map<string, string>
    var globalActiveUsers: seq<string>

    ghost predicate Valid()
      reads this, sessions.Values
    {
      && Distinct(order)
      && (forall k :: k in sessions <==> k in order)
      && (forall k, k' :: k in sessions && k' in sessions && k != k' ==>
            sessions[k] != sessions[k'] && sessions[k].board != sessions[k'].board)
      && (forall k :: k in sessions ==> sessions[k].board != template && Distinct(sessions[k].activeUsers))
      && Distinct(globalActiveUsers)
    }

    /** No session file: no sessions, no codes (`defaultSessions`). */
    constructor (template: Board)
      ensures Valid() && this.template == template
      ensures sessions == map[] && order == [] && activeCodes == []
      ensures joined == map[] && globalActiveUsers == []
    {
      this.template := template;
      sessions := map[];
      order := [];
      activeCodes := [];
      joined := map[];
      globalActiveUsers := [];
    }

    /**
     * `createSession` with the generated code, session id and time passed in:
     * a new session with no active connections and its own copy of the
     * template board. The code is not checked against `activeCodes`, only
     * appended to it.
     */
    method CreateSession(sessionId: string, code: string, created: string) returns (r: (string, string))
      requires Valid()
      modifies this
      ensures Valid()
      ensures r == (sessionId, code)
      ensures sessionId in sessions && fresh(sessions[sessionId]) && fresh(sessions[sessionId].board)
      ensures sessions[sessionId].code == code && sessions[sessionId].created == created
      ensures sessions[sessionId].activeUsers == []
      ensures sessions[sessionId].board.Data() == template.Data()
      ensures sessions.Keys == old(sessions.Keys) + {sessionId}
      ensures forall k :: k in old(sessions) && k != sessionId ==> sessions[k] == old(sessions[k])
      ensures order == if sessionId in old(sessions) then old(order) else old(order) + [sessionId]
      ensures activeCodes == old(activeCodes) + [code]
      ensures joined == old(joined) && globalActiveUsers == old(globalActiveUsers)
    {
      var copy := new Board(template.Data());
      var s := new Session(code, created, copy);
      ghost var before := sessions;
      if sessionId !in sessions {
        order := order + [sessionId];
      }
      sessions := sessions[sessionId := s];
      activeCodes := activeCodes + [code];
      r := (sessionId, code);
      forall k | k in sessions && k != sessionId
        ensures sessions[k] == before[k] && sessions[k] != s && sessions[k].board != copy
      {
      }
      assert forall k :: k in sessions <==> k in order;
      ValidAfterCreate(before, sessionId, s);
    }

    /** The registry invariant after a new session has been stored under `sessionId`. */
    lemma ValidAfterCreate(before: map<string, Session>, sessionId: string, s: Session)
      requires forall k :: k in sessions <==> k in order
      requires Distinct(order) && Distinct(globalActiveUsers)
      requires sessions == before[sessionId := s] && s.activeUsers == [] && s.board != template
      requires forall k :: k in sessions && k != sessionId ==> sessions[k] == before[k] && sessions[k] != s && sessions[k].board != s.board
      requires forall k, k' :: k in before && k' in before && k != k' ==>
                 before[k] != before[k'] && before[k].board != before[k'].board
      requires forall k :: k in before ==> before[k].board != template && Distinct(before[k].activeUsers)
      ensures Valid()
    {
    }

    /**
     * The join-by-code request: no code (or an empty one) is refused, otherwise
     * the first session whose code equals the upper-cased request code is
     * joined, and none matching is refused.
     */
    method JoinByCode(code: Option<string>) returns (r: JoinResult)
      requires Valid()
      ensures (code.None? || code.value == "") <==> r == CodeRequired
      ensures r == InvalidCode <==>
                code.Some? && code.value != "" && forall k :: k in sessions ==> sessions[k].code != Upper(code.value)
      ensures r.Joined? ==> r.sessionId in sessions && sessions[r.sessionId].code == Upper(code.value)
                            && r.board == sessions[r.sessionId].board.Data()
      ensures r.Joined? ==> exists j :: 0 <= j < |order| && order[j] == r.sessionId
                              && forall i :: 0 <= i < j ==> sessions[order[i]].code != Upper(code.value)
    {
      if code.None? || code.value == "" {
        return CodeRequired;
      }
      var found := FirstWithCode(order, sessions, Upper(code.value));
      if found.None? {
        r := InvalidCode;
      } else {
        r := Joined(found.value, sessions[found.value].board.Data());
      }
    }

    /** A new connection joins the global set, and everyone hears the new total. */
    method Connect(socket: string) returns (out: seq<Emit>)
      requires Valid()
      modifies this
      ensures Valid()
      ensures globalActiveUsers == SetAdd(old(globalActiveUsers), socket)
      ensures out == [Emit(Everyone, GlobalParticipantCount(|globalActiveUsers|))]
      ensures sessions == old(sessions) && order == old(order) && activeCodes == old(activeCodes)
      ensures joined == old(joined)
    {
      globalActiveUsers := SetAdd(globalActiveUsers, socket);
      out := [Emit(Everyone, GlobalParticipantCount(|globalActiveUsers|))];
    }

    /**
     * `join-session`: an unknown session id is answered with an error and changes
     * nothing; otherwise the connection is recorded in the session, receives the
     * board and the counts, and the others in the session hear of it.
     */
    method JoinSession(socket: string, sessionId: string) returns (out: seq<Emit>)
      requires Valid()
      modifies this, sessions.Values
      ensures Valid()
      ensures sessions == old(sessions) && order == old(order) && activeCodes == old(activeCodes)
      ensures globalActiveUsers == old(globalActiveUsers)
      ensures sessionId !in sessions ==>
                joined == old(joined) && out == [Emit(Sender, SessionError("Session not found"))]
      ensures sessionId in sessions ==>
                joined == old(joined)[socket := sessionId]
                && sessions[sessionId].activeUsers == SetAdd(old(sessions[sessionId].activeUsers), socket)
                && out == [ Emit(Sender, BoardSnapshot(sessions[sessionId].board.Data())),
                            Emit(Sender, ParticipantCount(|sessions[sessionId].activeUsers|)),
                            Emit(Sender, GlobalParticipantCount(|globalActiveUsers|)),
                            Emit(RoomOthers, UserJoined(socket)),
                            Emit(RoomOthers, ParticipantCount(|sessions[sessionId].activeUsers|)) ]
      ensures forall k :: k in sessions && k != sessionId ==> sessions[k].activeUsers == old(sessions[k].activeUsers)
    {
      if sessionId !in sessions {
        out := [Emit(Sender, SessionError("Session not found"))];
        return;
      }
      var s := sessions[sessionId];
      joined := joined[socket := sessionId];
      s.activeUsers := SetAdd(s.activeUsers, socket);
      var size := |s.activeUsers|;
      out := [ Emit(Sender, BoardSnapshot(s.board.Data())),
               Emit(Sender, ParticipantCount(size)),
               Emit(Sender, GlobalParticipantCount(|globalActiveUsers|)),
               Emit(RoomOthers, UserJoined(socket)),
               Emit(RoomOthers, ParticipantCount(size)) ];
    }

    /** The session a connection has joined, if `socket.sessionId` is set (a non-empty string). */
    function JoinedId(socket: string): Option<string>
      reads this
    {
      if socket in joined && joined[socket] != "" then Some(joined[socket]) else None
    }

    /**
     * A disconnect leaves the global set and, when the connection had joined an
     * existing session, that session's set; the counts are broadcast.
     */
    method Disconnect(socket: string) returns (out: seq<Emit>)
      requires Valid()
      modifies this, sessions.Values
      ensures Valid()
      ensures sessions == old(sessions) && order == old(order) && activeCodes == old(activeCodes)
      ensures joined == old(joined)
      ensures globalActiveUsers == SetDelete(old(globalActiveUsers), socket)
      ensures var sid := JoinedId(socket);
              if sid.Some? && sid.value in sessions then
                sessions[sid.value].activeUsers == SetDelete(old(sessions[sid.value].activeUsers), socket)
                && out == [ Emit(Everyone, GlobalParticipantCount(|globalActiveUsers|)),
                            Emit(RoomOthers, UserLeft(socket)),
                            Emit(RoomOthers, ParticipantCount(|sessions[sid.value].activeUsers|)) ]
              else out == [Emit(Everyone, GlobalParticipantCount(|globalActiveUsers|))]
      ensures forall k :: k in sessions && Some(k) != JoinedId(socket) ==>
                sessions[k].activeUsers == old(sessions[k].activeUsers)
    {
      globalActiveUsers := SetDelete(globalActiveUsers, socket);
      out := [Emit(Everyone, GlobalParticipantCount(|globalActiveUsers|))];
      var sid := JoinedId(socket);
      if sid.Some? && sid.value in sessions {
        var s := sessions[sid.value];
        s.activeUsers := SetDelete(s.activeUsers, socket);
        out := out + [Emit(RoomOthers, UserLeft(socket)), Emit(RoomOthers, ParticipantCount(|s.activeUsers|))];
      }
    }

    /**
     * The session a board message acts on: `socket.sessionId || data.sessionId`
     * looked up in the registry. Only `update-sticky`, `create-sticky` and
     * `move-sticky` read a session id from the payload.
     */
    function Resolve(socket: string, msg: Message, payloadSessionId: Option<string>): (r: Option<Session>)
      reads this
      ensures r.Some? ==> r.value in sessions.Values
      ensures JoinedId(socket).Some? ==>
                r == if JoinedId(socket).value in sessions then Some(sessions[JoinedId(socket).value]) else None
      ensures r.Some? && JoinedId(socket).None? ==>
                (msg.UpdateSticky? || msg.CreateSticky? || msg.MoveSticky?) && payloadSessionId.Some?
    {
      var fallback := if msg.UpdateSticky? || msg.CreateSticky? || msg.MoveSticky? then payloadSessionId else None;
      var sid := if JoinedId(socket).Some? then JoinedId(socket)
                 else if fallback.Some? && fallback.value != "" then fallback
                 else None;
      if sid.Some? && sid.value in sessions then Some(sessions[sid.value]) else None
    }

    /** The board a message may change: the resolved session's board, or nothing. */
    function Target(socket: string, msg: Message, payloadSessionId: Option<string>): set<Board>
      reads this
    {
      var r := Resolve(socket, msg, payloadSessionId);
      if r.Some? then {r.value.board} else {}
    }

    /**
     * A board message from a connection: it is handled on the resolved
     * session's board exactly as `Step` says and answered as `StepEmits` says,
     * and a message for no session is dropped silently.
     */
    method Handle(socket: string, msg: Message, payloadSessionId: Option<string>) returns (out: seq<Emit>)
      requires Valid()
      modifies Target(socket, msg, payloadSessionId)
      ensures Valid()
      ensures var r := Resolve(socket, msg, payloadSessionId);
              r.Some? ==> r.value.board.Data() == SB.Step(old(r.value.board.Data()), msg)
      ensures var r := Resolve(socket, msg, payloadSessionId);
              r.Some? ==> out == SB.StepEmits(old(r.value.board.Data()), msg)
      ensures Resolve(socket, msg, payloadSessionId).None? ==> out == []
      ensures |out| <= 1
    {
      var r := Resolve(socket, msg, payloadSessionId);
      if r.None? {
        return [];
      }
      var b := r.value.board;
      match msg {
        case UpdateSticky(p) =>
          var e := SB.UpdateSticky(b, p);
          out := [e];
        case CreateSticky(draft) =>
          var _, e := SB.CreateSticky(b, draft);
          out := [e];
        case MoveSticky(m) =>
          var e := SB.MoveSticky(b, m);
          out := if e.Some? then [e.value] else [];
        case UpdateDependencies(deps) =>
          var e := SB.ReplaceDependencies(b, deps);
          out := [e];
        case AddTeam(name, _) =>
          var e := SB.AddTeam(b, Lane(Undefined, name, false));
          out := if e.Some? then [e.value] else [];
        case AddSprint(name, _) =>
          var _, e := SB.AddSprint(b, Lane(Undefined, name, false));
          out := [e];
        case RemoveTeam(id) =>
          var e := SB.RemoveTeam(b, id);
          out := [e];
        case RemoveSprint(id) =>
          var e := SB.RemoveSprint(b, id);
          out := [e];
      }
    }
  }

  /**
   * Once a connection has joined a session, the session id in a payload is
   * ignored: every message acts on the joined session.
   */
  lemma JoinedConnectionIgnoresPayload(store: SessionStore, socket: string, msg: Message, a: Option<string>, b: Option<string>)
    requires store.JoinedId(socket).Some?
    ensures store.Resolve(socket, msg, a) == store.Resolve(socket, msg, b)
  {
  }

  /**
   * A connection that never joined can still change any session whose id it
   * names in an `update-sticky`, `create-sticky` or `move-sticky` payload.
   */
  lemma PayloadSessionIdSuffices(store: SessionStore, socket: string, msg: Message, sid: string)
    requires store.JoinedId(socket).None? && sid in store.sessions && sid != ""
    requires msg.UpdateSticky? || msg.CreateSticky? || msg.MoveSticky?
    ensures store.Resolve(socket, msg, Some(sid)) == Some(store.sessions[sid])
  {
  }

  /**
   * Join-by-code finds the same session for two typed codes that differ only
   * in letter case, and a stored code typed in any case finds its session.
   */
  lemma CodeCaseDoesNotMatter(store: SessionStore, typed: string, other: string)
    requires SameIgnoringCase(typed, other)
    ensures FirstWithCode(store.order, store.sessions, Upper(typed))
         == FirstWithCode(store.order, store.sessions, Upper(other))
    ensures forall k :: k in store.order && k in store.sessions && store.sessions[k].code == Upper(other)
              ==> FirstWithCode(store.order, store.sessions, Upper(typed)).Some?
  {
    UpperIgnoresCase(typed, other);
  }
}
