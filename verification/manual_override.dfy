/**
 * Manual override: the owner of a session records a student as present
 * without a scan. The row is synthetic: it sits at the session's anchor, at
 * distance 0, under a device id made from the clock, and its server nonce is
 * then marked used. The session need not be active.
 */
module ManualOverride {
  import opened Common
  import opened Js
  import opened Store
  import opened Auth

  const OverridePrefix: string := "manual-override-"
  const OverrideAppVersion: string := "manual-override"

  /** The JSON body; a field the body lacks is `None`. The free-text `reason` is read but never stored. */
  datatype OverrideRequest = OverrideRequest(
    sessionId: Option<string>,
    studentIndex: Option<string>,
    name: Option<string>,
    surname: Option<string>,
    reason: Option<string>)

  /** The answers of `POST /api/scans/manual-override`; unknown and foreign sessions are told apart. */
  datatype OverrideResponse =
    | OverrideAuthFailed(failure: AuthFailure)
    | OverrideMissingFields
    | SessionNotFound
    | NotSessionOwner
    | StudentAlreadyRecorded
    | OverrideFailed
    | Added(studentIndex: string, name: string, surname: string)
  {
    function Status(): nat
    {
      match this
      case OverrideAuthFailed(_) => 401
      case OverrideMissingFields => 400
      case SessionNotFound => 404
      case NotSessionOwner => 403
      case StudentAlreadyRecorded => 400
      case OverrideFailed => 500
      case Added(_, _, _) => 200
    }
  }

  predicate HasOverrideFields(q: OverrideRequest)
  {
    TruthyString(q.sessionId) && TruthyString(q.studentIndex) && TruthyString(q.name) && TruthyString(q.surname)
  }

  /** The device id of an override made when the clock read `clockMs`. */
  function OverrideDeviceId(clockMs: int): (id: string)
    ensures OverridePrefix <= id
  {
    OverridePrefix + IntToString(clockMs)
  }

  /** Overrides made at different milliseconds get different device ids, so only a same-millisecond pair can collide. */
  lemma {:induction false} OverrideDeviceIdsDistinct(a: int, b: int)
    requires a != b
    ensures OverrideDeviceId(a) != OverrideDeviceId(b)
  {
    if OverrideDeviceId(a) == OverrideDeviceId(b) {
      var n := |OverridePrefix|;
      assert IntToString(a) == OverrideDeviceId(a)[n..];
      assert IntToString(b) == OverrideDeviceId(b)[n..];
      ParseIntOfIntToString(a);
      ParseIntOfIntToString(b);
    }
  }

  /**
   * The synthetic `scans_valid` row: the session's anchor as the client
   * position, one insertion-time reading as `scanned_at_server` and, rendered
   * by `toIso`, as `client_ts`, distance 0, and the
   * override markers in device id, client nonce and app version.
   */
  function OverrideRow(session: Session, sessionId: string, studentIndex: string, name: string, surname: string,
                       clockMs: int, insertedAt: int, toIso: int -> string, serverNonce: string): (row: ValidScan)
    ensures row.sessionId == sessionId && row.studentIndex == studentIndex
    ensures row.name == name && row.surname == surname
    ensures row.clientLat == session.profLat && row.clientLon == session.profLon
    ensures row.clientTs == toIso(insertedAt) && row.scannedAtServer == insertedAt
    ensures row.distanceM == 0.0
    ensures row.deviceId == OverrideDeviceId(clockMs)
    ensures row.serverNonce == serverNonce && row.clientNonce == OverridePrefix + serverNonce
    ensures row.appVersion == Some(OverrideAppVersion)
  {
    ValidScan(sessionId, studentIndex, name, surname, session.profLat, session.profLon, toIso(insertedAt), insertedAt,
              0.0, OverrideDeviceId(clockMs), serverNonce, OverridePrefix + serverNonce, Some(OverrideAppVersion))
  }

  /**
   * `POST /api/scans/manual-override`. `clockMs` is the `Date.now()` reading
   * behind the device id, `insertedAt` the later `new Date()` reading that
   * gives both `client_ts` (rendered by `toIso`) and `scanned_at_server`,
   * `serverNonce` the generated nonce; `insertFails` and
   * `nonceFails` stand for unavailable storage.
   */
  method AddManualOverride(db: Db, header: Option<string>, professorOf: map<string, string>, q: OverrideRequest,
                           clockMs: int, insertedAt: int, toIso: int -> string, serverNonce: string,
                           insertFails: bool, nonceFails: bool)
    returns (resp: OverrideResponse)
    requires db.Valid()
    modifies db`scansValid, db`usedServerNonces
    ensures db.Valid()
    ensures match Authenticate(header, professorOf)
      case Failed(f) =>
        resp == OverrideAuthFailed(f) &&
        db.scansValid == old(db.scansValid) && db.usedServerNonces == old(db.usedServerNonces)
      case Authenticated(professorId) =>
        if !HasOverrideFields(q) then
          resp == OverrideMissingFields &&
          db.scansValid == old(db.scansValid) && db.usedServerNonces == old(db.usedServerNonces)
        else if SessionById(old(db.sessions), q.sessionId.value).None? then
          resp == SessionNotFound &&
          db.scansValid == old(db.scansValid) && db.usedServerNonces == old(db.usedServerNonces)
        else if SessionById(old(db.sessions), q.sessionId.value).value.professorId != professorId then
          resp == NotSessionOwner &&
          db.scansValid == old(db.scansValid) && db.usedServerNonces == old(db.usedServerNonces)
        else
          var row := OverrideRow(SessionById(old(db.sessions), q.sessionId.value).value, q.sessionId.value,
                                 q.studentIndex.value, q.name.value, q.surname.value,
                                 clockMs, insertedAt, toIso, serverNonce);
          if insertFails then
            resp == OverrideFailed &&
            db.scansValid == old(db.scansValid) && db.usedServerNonces == old(db.usedServerNonces)
          else if HasDeviceScan(old(db.scansValid), row.sessionId, row.deviceId) then
            resp == StudentAlreadyRecorded &&
            db.scansValid == old(db.scansValid) && db.usedServerNonces == old(db.usedServerNonces)
          else
            resp == Added(q.studentIndex.value, q.name.value, q.surname.value) &&
            db.scansValid == old(db.scansValid) + [row] &&
            db.usedServerNonces == old(db.usedServerNonces) +
                                   (if nonceFails then [] else [UsedServerNonce(serverNonce, q.sessionId.value)])
  {
    var auth := Authenticate(header, professorOf);
    if auth.Failed? {
      return OverrideAuthFailed(auth.failure);
    }
    if !HasOverrideFields(q) {
      return OverrideMissingFields;
    }
    var sessionId := q.sessionId.value;
    var found := SessionById(db.sessions, sessionId);
    if found.None? {
      return SessionNotFound;
    }
    if found.value.professorId != auth.professorId {
      return NotSessionOwner;
    }
    var row := OverrideRow(found.value, sessionId, q.studentIndex.value, q.name.value, q.surname.value,
                           clockMs, insertedAt, toIso, serverNonce);
    var outcome := db.InsertValidScan(row, insertFails);
    match outcome {
      case UniqueViolation =>
        resp := StudentAlreadyRecorded;
      case StorageError =>
        resp := OverrideFailed;
      case Inserted =>
        db.InsertUsedNonce(UsedServerNonce(serverNonce, sessionId), nonceFails);
        resp := Added(q.studentIndex.value, q.name.value, q.surname.value);
    }
  }
}
