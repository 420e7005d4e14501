/**
 * Starting a presence session: a bearer-authenticated professor opens a
 * session anchored at their coordinates, unless they already have an active
 * one. The session id the storage generates, the clock and the GPS predicate
 * are parameters.
 */
module SessionStart {
  import opened Common
  import opened Store
  import opened Auth

  /** The answers of `POST /api/sessions/start`. */
  datatype StartResponse =
    | StartAuthFailed(failure: AuthFailure)
    | InvalidGps
    | AlreadyActive
    | StartFailed
    | Created(sessionId: string, profLat: real, profLon: real, startTs: int)
  {
    function Status(): nat
    {
      match this
      case StartAuthFailed(_) => 401
      case InvalidGps => 400
      case AlreadyActive => 400
      case StartFailed => 500
      case Created(_, _, _, _) => 200
    }
  }

  /** The query for the professor's active sessions: `professor_id = professorId AND is_active`. */
  function ActiveSessionsOf(sessions: seq<Session>, professorId: string): seq<Session>
  {
    Filter(sessions, (s: Session) => s.professorId == professorId && s.isActive)
  }

  /** The query finds a row exactly when the professor has an active session. */
  lemma ActiveSessionsOfFinds(sessions: seq<Session>, professorId: string)
    ensures |ActiveSessionsOf(sessions, professorId)| > 0 <==>
            exists i :: 0 <= i < |sessions| && sessions[i].professorId == professorId && sessions[i].isActive
  {
    var p := (s: Session) => s.professorId == professorId && s.isActive;
    FilterKeepsMatches(sessions, p);
    if exists i :: 0 <= i < |sessions| && sessions[i].professorId == professorId && sessions[i].isActive {
      var i :| 0 <= i < |sessions| && sessions[i].professorId == professorId && sessions[i].isActive;
      assert sessions[i] in Filter(sessions, p);
    }
  }

  /** Appending a session keeps one active session per professor when its professor has no active session yet. */
  lemma {:induction false} AppendKeepsOneActive(sessions: seq<Session>, s: Session)
    requires OneActivePerProfessor(sessions)
    requires s.isActive ==> |ActiveSessionsOf(sessions, s.professorId)| == 0
    ensures OneActivePerProfessor(sessions + [s])
  {
    ActiveSessionsOfFinds(sessions, s.professorId);
    var all := sessions + [s];
    forall i, j | 0 <= i < j < |all| && all[i].isActive && all[j].isActive
      ensures all[i].professorId != all[j].professorId
    {
      if j == |sessions| {
        assert all[i] == sessions[i];
      } else {
        assert all[i] == sessions[i] && all[j] == sessions[j];
      }
    }
  }

  /**
   * `POST /api/sessions/start`. `newId` is the id the storage assigns to the
   * new row, `now` the clock. `activeQueryFails` stands for the active-session
   * query returning no data (the handler then treats it as "none active");
   * `insertFails` for a failing insert.
   */
  method StartSession(db: Db, header: Option<string>, professorOf: map<string, string>,
                      profLat: Option<real>, profLon: Option<real>, validGps: (real, real) -> bool,
                      newId: string, now: int, activeQueryFails: bool, insertFails: bool)
    returns (resp: StartResponse)
    requires db.Valid()
    modifies db`sessions
    ensures db.Valid()
    ensures match Authenticate(header, professorOf)
      case Failed(f) =>
        resp == StartAuthFailed(f) && db.sessions == old(db.sessions)
      case Authenticated(professorId) =>
        if profLat.None? || profLon.None? || !validGps(profLat.value, profLon.value) then
          resp == InvalidGps && db.sessions == old(db.sessions)
        else if !activeQueryFails && |ActiveSessionsOf(old(db.sessions), professorId)| > 0 then
          resp == AlreadyActive && db.sessions == old(db.sessions)
        else if insertFails || HasSessionId(old(db.sessions), newId) then
          resp == StartFailed && db.sessions == old(db.sessions)
        else
          resp == Created(newId, profLat.value, profLon.value, now) &&
          db.sessions == old(db.sessions) + [Session(newId, professorId, now, None, profLat.value, profLon.value, true)]
    ensures OneActivePerProfessor(old(db.sessions)) && !activeQueryFails ==> OneActivePerProfessor(db.sessions)
  {
    var auth := Authenticate(header, professorOf);
    if auth.Failed? {
      return StartAuthFailed(auth.failure);
    }
    var professorId := auth.professorId;
    if profLat.None? || profLon.None? || !validGps(profLat.value, profLon.value) {
      return InvalidGps;
    }
    if !activeQueryFails && |ActiveSessionsOf(db.sessions, professorId)| > 0 {
      return AlreadyActive;
    }
    var session := Session(newId, professorId, now, None, profLat.value, profLon.value, true);
    if OneActivePerProfessor(db.sessions) && !activeQueryFails {
      AppendKeepsOneActive(db.sessions, session);
    }
    var ok := db.InsertSession(session, insertFails);
    if !ok {
      return StartFailed;
    }
    resp := Created(newId, profLat.value, profLon.value, now);
  }
}
