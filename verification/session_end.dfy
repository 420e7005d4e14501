/**
 * Ending a presence session: the owner stamps `end_ts`, clears `is_active`
 * and deletes the session's registry tokens. The handler archives nothing and
 * does not check whether the session already ended.
 */
module SessionEnd {
  import opened Common
  import opened Store
  import opened Auth
  import opened Js
  import opened ScanSubmit

  /** The answers of `POST /api/sessions/end`; an unknown session and another professor's session share one 404. */
  datatype EndResponse =
    | EndAuthFailed(failure: AuthFailure)
    | MissingSessionId
    | NotFoundOrNotOwner
    | EndFailed
    | Ended(sessionId: string)
  {
    function Status(): nat
    {
      match this
      case EndAuthFailed(_) => 401
      case MissingSessionId => 400
      case NotFoundOrNotOwner => 404
      case EndFailed => 500
      case Ended(_) => 200
    }
  }

  /** The caller may end the session: it is found and it belongs to them. */
  predicate OwnsSession(sessions: seq<Session>, sessionId: string, professorId: string)
  {
    SessionById(sessions, sessionId).Some? && SessionById(sessions, sessionId).value.professorId == professorId
  }

  /** Under the primary key, the caller owns a session exactly when a row with that id names them as its professor. */
  lemma {:induction false} OwnsSessionExactly(sessions: seq<Session>, sessionId: string, professorId: string)
    requires UniqueSessionIds(sessions)
    ensures OwnsSession(sessions, sessionId, professorId) <==>
            exists i :: 0 <= i < |sessions| && sessions[i].sessionId == sessionId && sessions[i].professorId == professorId
  {
    var p := (s: Session) => s.sessionId == sessionId;
    FilterKeepsMatches(sessions, p);
    if exists i :: 0 <= i < |sessions| && sessions[i].sessionId == sessionId && sessions[i].professorId == professorId {
      var i :| 0 <= i < |sessions| && sessions[i].sessionId == sessionId && sessions[i].professorId == professorId;
      assert AtMostOne(sessions, p);
      SingleFindsUniqueRow(sessions, p, sessions[i]);
    } else if OwnsSession(sessions, sessionId, professorId) {
      var found := Filter(sessions, p)[0];
      assert found in sessions;
    }
  }

  /**
   * Ending changes exactly the rows with the id: each becomes inactive with
   * the new end time and keeps every other column; all other rows stay.
   */
  lemma EndRowsChangesOnlyTarget(sessions: seq<Session>, sessionId: string, endTs: int)
    ensures |EndRows(sessions, sessionId, endTs)| == |sessions|
    ensures forall i :: 0 <= i < |sessions| ==>
      var r := EndRows(sessions, sessionId, endTs)[i];
      if sessions[i].sessionId == sessionId then
        !r.isActive && r.endTs == Some(endTs) && r.sessionId == sessions[i].sessionId &&
        r.professorId == sessions[i].professorId && r.startTs == sessions[i].startTs &&
        r.profLat == sessions[i].profLat && r.profLon == sessions[i].profLon
      else r == sessions[i]
  {
  }

  /** There is no already-ended guard: ending again succeeds and only re-stamps the end time. */
  lemma EndingTwiceRestamps(sessions: seq<Session>, sessionId: string, first: int, second: int)
    ensures EndRows(EndRows(sessions, sessionId, first), sessionId, second) == EndRows(sessions, sessionId, second)
  {
  }

  /** Ending keeps the primary key and can only remove active sessions, so one active session per professor is kept. */
  lemma EndRowsKeepsConstraints(sessions: seq<Session>, sessionId: string, endTs: int)
    ensures UniqueSessionIds(sessions) ==> UniqueSessionIds(EndRows(sessions, sessionId, endTs))
    ensures OneActivePerProfessor(sessions) ==> OneActivePerProfessor(EndRows(sessions, sessionId, endTs))
    ensures forall s :: s in EndRows(sessions, sessionId, endTs) && s.sessionId == sessionId ==> !s.isActive
  {
  }

  /** Deleting a session's tokens removes all of them and keeps every token of the other sessions. */
  lemma DeleteSessionTokensExact(tokens: seq<QrToken>, sessionId: string)
    ensures forall t :: t in DeleteSessionTokens(tokens, sessionId) ==> t.sessionId != sessionId
    ensures forall t :: t in tokens && t.sessionId != sessionId ==> t in DeleteSessionTokens(tokens, sessionId)
  {
    FilterKeepsMatches(tokens, (t: QrToken) => t.sessionId != sessionId);
  }

  /**
   * After a successful end (update and token deletion), no scan for that
   * session is accepted, whatever else a claim carries.
   */
  lemma EndedSessionAcceptsNoScan(t: Tables, sessionId: string, endTs: int, c: Claim, env: Env, tokenFormatOk: bool)
    requires c.sessionId == sessionId
    ensures var ended := t.(sessions := EndRows(t.sessions, sessionId, endTs),
                            qrTokens := DeleteSessionTokens(t.qrTokens, sessionId));
            CheckClaim(c, ended, env, tokenFormatOk).Reject? &&
            CheckClaim(c, ended, env, tokenFormatOk).reason in {InvalidGpsFormat, SessionNotFoundOrInactive}
  {
    EndRowsKeepsConstraints(t.sessions, sessionId, endTs);
    InactiveSessionNeverAccepts(c, t.(sessions := EndRows(t.sessions, sessionId, endTs),
                                      qrTokens := DeleteSessionTokens(t.qrTokens, sessionId)), env, tokenFormatOk);
  }

  /**
   * `POST /api/sessions/end`. `now` is the clock; `updateFails` and
   * `deleteFails` stand for failing storage calls. The deletion's outcome is
   * not looked at.
   */
  method EndSession(db: Db, header: Option<string>, professorOf: map<string, string>,
                    sessionId: Option<string>, now: int, updateFails: bool, deleteFails: bool)
    returns (resp: EndResponse)
    requires db.Valid()
    modifies db`sessions, db`qrTokens
    ensures db.Valid()
    ensures match Authenticate(header, professorOf)
      case Failed(f) =>
        resp == EndAuthFailed(f) && db.sessions == old(db.sessions) && db.qrTokens == old(db.qrTokens)
      case Authenticated(professorId) =>
        if !TruthyString(sessionId) then
          resp == MissingSessionId && db.sessions == old(db.sessions) && db.qrTokens == old(db.qrTokens)
        else if !OwnsSession(old(db.sessions), sessionId.value, professorId) then
          resp == NotFoundOrNotOwner && db.sessions == old(db.sessions) && db.qrTokens == old(db.qrTokens)
        else if updateFails then
          resp == EndFailed && db.sessions == old(db.sessions) && db.qrTokens == old(db.qrTokens)
        else
          resp == Ended(sessionId.value) &&
          db.sessions == EndRows(old(db.sessions), sessionId.value, now) &&
          db.qrTokens == (if deleteFails then old(db.qrTokens)
                          else DeleteSessionTokens(old(db.qrTokens), sessionId.value))
    ensures OneActivePerProfessor(old(db.sessions)) ==> OneActivePerProfessor(db.sessions)
  {
    var auth := Authenticate(header, professorOf);
    if auth.Failed? {
      return EndAuthFailed(auth.failure);
    }
    if !TruthyString(sessionId) {
      return MissingSessionId;
    }
    var id := sessionId.value;
    if !OwnsSession(db.sessions, id, auth.professorId) {
      return NotFoundOrNotOwner;
    }
    EndRowsKeepsConstraints(db.sessions, id, now);
    var ok := db.EndSessionRows(id, now, updateFails);
    if !ok {
      return EndFailed;
    }
    db.DeleteTokensOf(id, deleteFails);
    resp := Ended(id);
  }
}
