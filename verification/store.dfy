/**
 * The relational store the handlers talk to: one record type per table and a
 * `Db` object whose fields are the tables. Each primitive operation mirrors one
 * storage call; a `bool` parameter stands for the storage being unavailable.
 */
module Store {
  import opened Common

  /** A presence session; times are milliseconds since the epoch. */
  datatype Session = Session(
    sessionId: string,
    professorId: string,
    startTs: int,
    endTs: Option<int>,
    profLat: real,
    profLon: real,
    isActive: bool)

  /** A row of the token registry `qr_tokens`. */
  datatype QrToken = QrToken(sessionId: string, token: string, expiresAt: int)

  /** A row of `scans_valid`: one accepted proof of presence. */
  datatype ValidScan = ValidScan(
    sessionId: string,
    studentIndex: string,
    name: string,
    surname: string,
    clientLat: real,
    clientLon: real,
    clientTs: string,
    scannedAtServer: int,
    distanceM: real,
    deviceId: string,
    serverNonce: string,
    clientNonce: string,
    appVersion: Option<string>)

  /** Why a scan was refused; the submission checks produce these, in this order. */
  datatype RejectReason =
    | InvalidGpsFormat
    | SessionNotFoundOrInactive
    | DeviceAlreadyScanned
    | InvalidOrExpiredToken
    | TokenNotFoundOrExpired
    | ClockSkew(differenceSeconds: real, toleranceSeconds: real)
    | TooFar(distanceMeters: real, toleranceMeters: real)

  /** The `reason` column of `scans_invalid`: a failed check, or the unique-constraint violation at insert time. */
  datatype LogReason = FailedCheck(check: RejectReason) | DuplicateOnInsert

  /** A row of `scans_invalid`, the append-only log of refused scans. */
  datatype InvalidScan = InvalidScan(
    sessionId: string,
    studentIndex: string,
    name: string,
    surname: string,
    clientLat: real,
    clientLon: real,
    clientTs: string,
    scannedAtServer: int,
    distanceM: Option<real>,
    deviceId: string,
    serverNonce: string,
    clientNonce: string,
    appVersion: Option<string>,
    reason: LogReason,
    qrToken: string)

  /** A row of `used_server_nonces`. */
  datatype UsedServerNonce = UsedServerNonce(serverNonce: string, sessionId: string)

  /** A row of `archived_scans`: a copy of an accepted scan. */
  datatype ArchivedScan = ArchivedScan(scan: ValidScan, archivedAt: int)

  /** The contents of all tables at one moment. */
  datatype Tables = Tables(
    sessions: seq<Session>,
    qrTokens: seq<QrToken>,
    scansValid: seq<ValidScan>,
    scansInvalid: seq<InvalidScan>,
    usedServerNonces: seq<UsedServerNonce>,
    archivedScans: seq<ArchivedScan>)

  /** What an insert into a table with a unique constraint reports. */
  datatype InsertOutcome = Inserted | UniqueViolation | StorageError

  /** The unique constraint on `scans_valid (session_id, device_id)`. */
  ghost predicate UniqueDeviceScans(rows: seq<ValidScan>)
  {
    forall i, j :: 0 <= i < j < |rows| ==>
      rows[i].sessionId != rows[j].sessionId || rows[i].deviceId != rows[j].deviceId
  }

  /** The primary key of `sessions`. */
  ghost predicate UniqueSessionIds(sessions: seq<Session>)
  {
    forall i, j :: 0 <= i < j < |sessions| ==> sessions[i].sessionId != sessions[j].sessionId
  }

  /** The application rule that no professor has two active sessions. */
  ghost predicate OneActivePerProfessor(sessions: seq<Session>)
  {
    forall i, j :: 0 <= i < j < |sessions| && sessions[i].isActive && sessions[j].isActive ==>
      sessions[i].professorId != sessions[j].professorId
  }

  predicate HasDeviceScan(rows: seq<ValidScan>, sessionId: string, deviceId: string)
  {
    exists i :: 0 <= i < |rows| && rows[i].sessionId == sessionId && rows[i].deviceId == deviceId
  }

  predicate HasSessionId(sessions: seq<Session>, sessionId: string)
  {
    exists i :: 0 <= i < |sessions| && sessions[i].sessionId == sessionId
  }

  /** A session lookup by id ending in `.single()`: the row, when exactly one has the id. */
  function SessionById(sessions: seq<Session>, sessionId: string): Option<Session>
  {
    Single(Filter(sessions, (s: Session) => s.sessionId == sessionId))
  }

  /** The sessions after `UPDATE sessions SET end_ts = endTs, is_active = false WHERE session_id = sessionId`. */
  function EndRows(sessions: seq<Session>, sessionId: string, endTs: int): seq<Session>
  {
    seq(|sessions|, i requires 0 <= i < |sessions| =>
      if sessions[i].sessionId == sessionId then sessions[i].(isActive := false, endTs := Some(endTs))
      else sessions[i])
  }

  /** The registry after `DELETE FROM qr_tokens WHERE session_id = sessionId`. */
  function DeleteSessionTokens(tokens: seq<QrToken>, sessionId: string): seq<QrToken>
  {
    Filter(tokens, (t: QrToken) => t.sessionId != sessionId)
  }

  class Db {
    var sessions: seq<Session>
    var qrTokens: seq<QrToken>
    var scansValid: seq<ValidScan>
    var scansInvalid: seq<InvalidScan>
    var usedServerNonces: seq<UsedServerNonce>
    var archivedScans: seq<ArchivedScan>

    /** The schema constraints the storage enforces. */
    ghost predicate Valid()
      reads this
    {
      UniqueSessionIds(sessions) && UniqueDeviceScans(scansValid)
    }

    function Snapshot(): Tables
      reads this
    {
      Tables(sessions, qrTokens, scansValid, scansInvalid, usedServerNonces, archivedScans)
    }

    constructor ()
      ensures Valid()
      ensures Snapshot() == Tables([], [], [], [], [], [])
    {
      sessions, qrTokens, scansValid := [], [], [];
      scansInvalid, usedServerNonces, archivedScans := [], [], [];
    }

    /** Insert into `scans_valid`; the unique constraint refuses a second row for a (session, device) pair. */
    method InsertValidScan(row: ValidScan, unavailable: bool) returns (outcome: InsertOutcome)
      requires Valid()
      modifies this`scansValid
      ensures Valid()
      ensures outcome == (if unavailable then StorageError
                          else if HasDeviceScan(old(scansValid), row.sessionId, row.deviceId) then UniqueViolation
                          else Inserted)
      ensures scansValid == (if outcome == Inserted then old(scansValid) + [row] else old(scansValid))
    {
      if unavailable {
        outcome := StorageError;
      } else if HasDeviceScan(scansValid, row.sessionId, row.deviceId) {
        outcome := UniqueViolation;
      } else {
        scansValid := scansValid + [row];
        outcome := Inserted;
      }
    }

    /** Insert into `scans_invalid`; nothing is written when the storage fails. */
    method InsertInvalidScan(row: InvalidScan, unavailable: bool)
      modifies this`scansInvalid
      ensures scansInvalid == (if unavailable then old(scansInvalid) else old(scansInvalid) + [row])
    {
      if !unavailable {
        scansInvalid := scansInvalid + [row];
      }
    }

    /** Insert into `sessions`; the primary key refuses a session id already present. */
    method InsertSession(s: Session, unavailable: bool) returns (ok: bool)
      requires Valid()
      modifies this`sessions
      ensures Valid()
      ensures ok == (!unavailable && !HasSessionId(old(sessions), s.sessionId))
      ensures sessions == (if ok then old(sessions) + [s] else old(sessions))
    {
      ok := !unavailable && !HasSessionId(sessions, s.sessionId);
      if ok {
        sessions := sessions + [s];
      }
    }

    /** Mark every row with `sessionId` ended at `endTs`. */
    method EndSessionRows(sessionId: string, endTs: int, unavailable: bool) returns (ok: bool)
      requires Valid()
      modifies this`sessions
      ensures Valid()
      ensures ok == !unavailable
      ensures sessions == (if ok then EndRows(old(sessions), sessionId, endTs) else old(sessions))
    {
      ok := !unavailable;
      if ok {
        sessions := EndRows(sessions, sessionId, endTs);
      }
    }

    /** Delete the registry rows of one session. */
    method DeleteTokensOf(sessionId: string, unavailable: bool)
      modifies this`qrTokens
      ensures qrTokens == (if unavailable then old(qrTokens) else DeleteSessionTokens(old(qrTokens), sessionId))
    {
      if !unavailable {
        qrTokens := DeleteSessionTokens(qrTokens, sessionId);
      }
    }

    /** Insert into `used_server_nonces`. */
    method InsertUsedNonce(n: UsedServerNonce, unavailable: bool)
      modifies this`usedServerNonces
      ensures usedServerNonces == (if unavailable then old(usedServerNonces) else old(usedServerNonces) + [n])
    {
      if !unavailable {
        usedServerNonces := usedServerNonces + [n];
      }
    }
  }
}
