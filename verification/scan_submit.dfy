/**
 * Scan submission: the ordered guard chain that turns an attendance claim into
 * a verdict, and the commit of that verdict into `scans_valid` or
 * `scans_invalid`.
 *
 * The guards read a snapshot of `sessions`, `scans_valid` and `qr_tokens`
 * (`Decide`); the commit runs against the live store (`Submit`). Passing the
 * snapshot separately lets the model express the race the unique constraint
 * closes: a snapshot taken before a concurrent insert of the same device.
 */
module ScanSubmit {
  import opened Common
  import opened Js
  import opened Crypto
  import opened Store

  const DefaultGpsToleranceMeters: real := 50.0
  const DefaultTimestampToleranceSeconds: real := 10.0
  /** The number of ordered guards after the required-field check. */
  const GuardCount: nat := 7

  /**
   * A tolerance read from the environment as `Number(value) || fallback`:
   * `None` stands for an unset or unparsable value (NaN); NaN and 0 fall back.
   */
  function Tolerance(configured: Option<real>, fallback: real): (t: real)
    ensures fallback != 0.0 ==> t != 0.0
    ensures !TruthyNumber(configured) ==> t == fallback
    ensures TruthyNumber(configured) ==> t == configured.value
  {
    if TruthyNumber(configured) then configured.value else fallback
  }

  /**
   * What the handler takes from its surroundings: the three clock readings
   * it makes (request arrival, the token check's `Date.now()`, the registry
   * query's `new Date()`), the two tolerance settings as `Number(...)` reads
   * them (`None` for unset or NaN), the GPS predicate, the distance function
   * and the date parser (`None` for an unparsable date).
   */
  datatype Env = Env(
    receivedAt: int,
    tokenCheckAt: int,
    registryAt: int,
    gpsSetting: Option<real>,
    timestampSetting: Option<real>,
    validGps: (real, real) -> bool,
    distance: (real, real, real, real) -> real,
    parseDate: string -> Option<int>)
  {
    /** `GPS_TOLERANCE_METERS`: the setting, or 50 when it is unset, NaN or 0. */
    function GpsTolerance(): real
    {
      Tolerance(gpsSetting, DefaultGpsToleranceMeters)
    }

    /** `TIMESTAMP_TOLERANCE_SECONDS`: the setting, or 10 when it is unset, NaN or 0. */
    function TimestampTolerance(): real
    {
      Tolerance(timestampSetting, DefaultTimestampToleranceSeconds)
    }
  }

  /** The JSON body of a submission; a field the body lacks is `None`. */
  datatype ScanRequest = ScanRequest(
    sessionId: Option<string>,
    token: Option<string>,
    serverNonce: Option<string>,
    studentIndex: Option<string>,
    name: Option<string>,
    surname: Option<string>,
    clientLat: Option<real>,
    clientLon: Option<real>,
    clientTs: Option<string>,
    deviceId: Option<string>,
    clientNonce: Option<string>,
    appVersion: Option<string>)

  /** A request whose required fields are all present. */
  datatype Claim = Claim(
    sessionId: string,
    token: string,
    serverNonce: string,
    studentIndex: string,
    name: string,
    surname: string,
    lat: real,
    lon: real,
    clientTs: string,
    deviceId: string,
    clientNonce: string,
    appVersion: Option<string>)

  /** Validation 1: every required field is truthy (`app_version` is optional). */
  predicate HasRequiredFields(q: ScanRequest)
  {
    TruthyString(q.sessionId) && TruthyString(q.token) && TruthyString(q.serverNonce) &&
    TruthyString(q.studentIndex) && TruthyString(q.name) && TruthyString(q.surname) &&
    TruthyNumber(q.clientLat) && TruthyNumber(q.clientLon) && TruthyString(q.clientTs) &&
    TruthyString(q.deviceId) && TruthyString(q.clientNonce)
  }

  function ClaimOf(q: ScanRequest): Claim
    requires HasRequiredFields(q)
  {
    Claim(q.sessionId.value, q.token.value, q.serverNonce.value, q.studentIndex.value, q.name.value,
          q.surname.value, q.clientLat.value, q.clientLon.value, q.clientTs.value, q.deviceId.value,
          q.clientNonce.value, q.appVersion)
  }

  /** Validation 3's query: the one active session with this id. */
  function ActiveSession(sessions: seq<Session>, sessionId: string): Option<Session>
  {
    Single(Filter(sessions, (s: Session) => s.sessionId == sessionId && s.isActive))
  }

  /** Validation 4's query: exactly one accepted scan for this (session, device) pair. */
  predicate DeviceAlreadyRecorded(rows: seq<ValidScan>, sessionId: string, deviceId: string)
  {
    Single(Filter(rows, (r: ValidScan) => r.sessionId == sessionId && r.deviceId == deviceId)).Some?
  }

  /** Validation 6's query: exactly one registry row for this session and token, not expired at `now`. */
  predicate TokenRegistered(tokens: seq<QrToken>, sessionId: string, token: string, now: int)
  {
    Single(Filter(tokens, (t: QrToken) => t.sessionId == sessionId && t.token == token && t.expiresAt >= now)).Some?
  }

  function Abs(x: int): nat
  {
    if x < 0 then -x else x
  }

  /** `Math.abs(server - client) / 1000`; `None` when the client time is NaN. */
  function SkewSeconds(clientMs: Option<int>, serverMs: int): Option<real>
  {
    match clientMs
    case None => None
    case Some(c) => Some(Abs(serverMs - c) as real / 1000.0)
  }

  function DistanceToAnchor(s: Session, c: Claim, env: Env): real
  {
    env.distance(s.profLat, s.profLon, c.lat, c.lon)
  }

  /** Validation 2: the coordinates pass the GPS format predicate. */
  predicate GpsFormatOk(c: Claim, env: Env)
  {
    env.validGps(c.lat, c.lon)
  }

  /** Validation 3: the session exists and is active. */
  predicate SessionActive(c: Claim, snap: Tables)
  {
    ActiveSession(snap.sessions, c.sessionId).Some?
  }

  /** Validation 4: the device has no accepted scan for the session. */
  predicate DeviceNew(c: Claim, snap: Tables)
  {
    !DeviceAlreadyRecorded(snap.scansValid, c.sessionId, c.deviceId)
  }

  /** Validation 5: token format and age, with a maximum age of 10 seconds. */
  predicate TokenFormatOk(c: Claim, env: Env)
  {
    ValidateQRTokenFormat(c.token, env.tokenCheckAt, DefaultMaxAgeSeconds)
  }

  /** Validation 6: the token is in the registry for the session and not expired. */
  predicate TokenInRegistry(c: Claim, snap: Tables, env: Env)
  {
    TokenRegistered(snap.qrTokens, c.sessionId, c.token, env.registryAt)
  }

  /** Validation 8: the skew does not exceed the tolerance; a NaN skew compares false and passes. */
  predicate ClockInSync(c: Claim, env: Env)
  {
    match SkewSeconds(env.parseDate(c.clientTs), env.receivedAt)
    case None => true
    case Some(d) => !(d > env.TimestampTolerance())
  }

  /** Validation 9: the distance to the active session's anchor does not exceed the tolerance. */
  predicate NearAnchor(c: Claim, snap: Tables, env: Env)
  {
    match ActiveSession(snap.sessions, c.sessionId)
    case None => true
    case Some(s) => !(DistanceToAnchor(s, c, env) > env.GpsTolerance())
  }

  /**
   * Guard `k` of the chain, numbered in the order the handler runs them.
   * `tokenFormatOk` is the verdict of `validateQRTokenFormat` (guard 3), so
   * that the chain can be reasoned about without unfolding the token parser.
   */
  predicate GuardHolds(k: nat, c: Claim, snap: Tables, env: Env, tokenFormatOk: bool)
  {
    match k
    case 0 => GpsFormatOk(c, env)
    case 1 => SessionActive(c, snap)
    case 2 => DeviceNew(c, snap)
    case 3 => tokenFormatOk
    case 4 => TokenInRegistry(c, snap, env)
    case 5 => ClockInSync(c, env)
    case _ => NearAnchor(c, snap, env)
  }

  /** The guard whose failure produces each reason. */
  function Stage(r: RejectReason): nat
  {
    match r
    case InvalidGpsFormat => 0
    case SessionNotFoundOrInactive => 1
    case DeviceAlreadyScanned => 2
    case InvalidOrExpiredToken => 3
    case TokenNotFoundOrExpired => 4
    case ClockSkew(_, _) => 5
    case TooFar(_, _) => 6
  }

  /** The `scans_invalid` row a refused claim is logged as. */
  function InvalidRow(c: Claim, env: Env, reason: LogReason, distance: Option<real>): InvalidScan
  {
    InvalidScan(c.sessionId, c.studentIndex, c.name, c.surname, c.lat, c.lon, c.clientTs, env.receivedAt,
                distance, c.deviceId, c.serverNonce, c.clientNonce, c.appVersion, reason, c.token)
  }

  /** The `scans_valid` row an accepted claim is recorded as. */
  function ValidRow(c: Claim, env: Env, distance: real): ValidScan
  {
    ValidScan(c.sessionId, c.studentIndex, c.name, c.surname, c.lat, c.lon, c.clientTs, env.receivedAt,
              distance, c.deviceId, c.serverNonce, c.clientNonce, c.appVersion)
  }

  /** The outcome of the guard chain: the missing-field answer, a refusal with its log row, or a row to insert. */
  datatype Decision =
    | MissingFields
    | Reject(reason: RejectReason, logged: InvalidScan)
    | Accept(row: ValidScan)

  function Refuse(c: Claim, env: Env, reason: RejectReason, distance: Option<real>): Decision
  {
    Reject(reason, InvalidRow(c, env, FailedCheck(reason), distance))
  }

  /** The number of the first guard that fails, or `GuardCount` when none does. */
  function FirstFailure(c: Claim, snap: Tables, env: Env, tokenFormatOk: bool): (k: nat)
    ensures k <= GuardCount
    ensures k < GuardCount ==> !GuardHolds(k, c, snap, env, tokenFormatOk)
    ensures forall j :: 0 <= j < k ==> GuardHolds(j, c, snap, env, tokenFormatOk)
  {
    if !GpsFormatOk(c, env) then 0
    else if !SessionActive(c, snap) then 1
    else if !DeviceNew(c, snap) then 2
    else if !tokenFormatOk then 3
    else if !TokenInRegistry(c, snap, env) then 4
    else if !ClockInSync(c, env) then 5
    else if !NearAnchor(c, snap, env) then 6
    else 7
  }

  /**
   * Validations 2 to 9 for a complete claim: the first failing guard
   * decides the refusal; a skew refusal reports the measured skew and a
   * distance refusal the measured distance, which is also logged.
   */
  function CheckClaim(c: Claim, snap: Tables, env: Env, tokenFormatOk: bool): (d: Decision)
    ensures !d.MissingFields?
    ensures d.Reject? ==> d.logged.reason == FailedCheck(d.reason) && d.logged.qrToken == c.token
    ensures d.Accept? ==> d.row.sessionId == c.sessionId && d.row.deviceId == c.deviceId
  {
    match FirstFailure(c, snap, env, tokenFormatOk)
    case 0 => Refuse(c, env, InvalidGpsFormat, None)
    case 1 => Refuse(c, env, SessionNotFoundOrInactive, None)
    case 2 => Refuse(c, env, DeviceAlreadyScanned, None)
    case 3 => Refuse(c, env, InvalidOrExpiredToken, None)
    case 4 => Refuse(c, env, TokenNotFoundOrExpired, None)
    case 5 =>
      var skew := SkewSeconds(env.parseDate(c.clientTs), env.receivedAt).value;
      Refuse(c, env, ClockSkew(skew, env.TimestampTolerance()), None)
    case 6 =>
      var distance := DistanceToAnchor(ActiveSession(snap.sessions, c.sessionId).value, c, env);
      Refuse(c, env, TooFar(distance, env.GpsTolerance()), Some(distance))
    case _ =>
      Accept(ValidRow(c, env, DistanceToAnchor(ActiveSession(snap.sessions, c.sessionId).value, c, env)))
  }

  /** Validation 1, then the rest of the chain over a snapshot, with the token check made at `env.tokenCheckAt`. */
  function Decide(q: ScanRequest, snap: Tables, env: Env): (d: Decision)
    ensures d.MissingFields? <==> !HasRequiredFields(q)
  {
    if !HasRequiredFields(q) then MissingFields
    else CheckClaim(ClaimOf(q), snap, env, TokenFormatOk(ClaimOf(q), env))
  }

  /** Every guard before the one a refusal names passes, and the named one fails. */
  lemma RejectNamesFirstFailingGuard(c: Claim, snap: Tables, env: Env, tokenFormatOk: bool)
    requires CheckClaim(c, snap, env, tokenFormatOk).Reject?
    ensures var r := CheckClaim(c, snap, env, tokenFormatOk).reason;
            Stage(r) < GuardCount &&
            !GuardHolds(Stage(r), c, snap, env, tokenFormatOk) &&
            forall k :: 0 <= k < Stage(r) ==> GuardHolds(k, c, snap, env, tokenFormatOk)
  {
  }

  /** A claim is accepted exactly when every guard passes. */
  lemma AcceptIffAllGuardsHold(c: Claim, snap: Tables, env: Env, tokenFormatOk: bool)
    ensures CheckClaim(c, snap, env, tokenFormatOk).Accept? <==>
            forall k :: 0 <= k < GuardCount ==> GuardHolds(k, c, snap, env, tokenFormatOk)
  {
  }

  /**
   * A refusal for skew or distance carries the measured value, which
   * exceeds its tolerance; a distance refusal also logs the distance.
   */
  lemma MeasuredRefusalsExceedTolerance(c: Claim, snap: Tables, env: Env, tokenFormatOk: bool)
    requires CheckClaim(c, snap, env, tokenFormatOk).Reject?
    ensures var d := CheckClaim(c, snap, env, tokenFormatOk);
            (d.reason.ClockSkew? ==>
               d.reason.toleranceSeconds == env.TimestampTolerance() &&
               d.reason.differenceSeconds > d.reason.toleranceSeconds &&
               SkewSeconds(env.parseDate(c.clientTs), env.receivedAt) == Some(d.reason.differenceSeconds)) &&
            (d.reason.TooFar? ==>
               d.reason.toleranceMeters == env.GpsTolerance() &&
               d.reason.distanceMeters > d.reason.toleranceMeters &&
               d.logged.distanceM == Some(d.reason.distanceMeters))
  {
  }

  /** An accepted row carries the distance to the anchor of the active session, within the tolerance. */
  lemma AcceptedRowDistance(c: Claim, snap: Tables, env: Env, tokenFormatOk: bool)
    requires CheckClaim(c, snap, env, tokenFormatOk).Accept?
    ensures var row := CheckClaim(c, snap, env, tokenFormatOk).row;
            ActiveSession(snap.sessions, c.sessionId).Some? &&
            row.distanceM == DistanceToAnchor(ActiveSession(snap.sessions, c.sessionId).value, c, env) &&
            row.distanceM <= env.GpsTolerance() &&
            row.scannedAtServer == env.receivedAt
  {
  }

  /**
   * A coordinate of exactly 0 is falsy, so a claim on the equator or the
   * prime meridian is answered as if the coordinate were missing.
   */
  lemma ZeroCoordinateCountsAsMissing(q: ScanRequest, snap: Tables, env: Env)
    requires q.clientLat == Some(0.0) || q.clientLon == Some(0.0)
    ensures Decide(q, snap, env) == MissingFields
  {
  }

  /** The skew guard in milliseconds: it fails only when the difference exceeds the tolerance; equality and NaN pass. */
  lemma ClockGuardBoundary(c: Claim, env: Env)
    ensures ClockInSync(c, env) <==>
            env.parseDate(c.clientTs).None? ||
            Abs(env.receivedAt - env.parseDate(c.clientTs).value) as real <= env.TimestampTolerance() * 1000.0
  {
  }

  /**
   * With the tolerance settings unset (or NaN, or 0), a claim passes the clock
   * guard iff its skew is at most 10 000 ms (or its date is NaN), and the
   * distance guard iff it lies at most 50 m from the anchor.
   */
  lemma DefaultTolerancesApply(c: Claim, snap: Tables, env: Env)
    requires !TruthyNumber(env.timestampSetting) && !TruthyNumber(env.gpsSetting)
    ensures ClockInSync(c, env) <==>
            env.parseDate(c.clientTs).None? ||
            Abs(env.receivedAt - env.parseDate(c.clientTs).value) <= 10000
    ensures ActiveSession(snap.sessions, c.sessionId).Some? ==>
              (NearAnchor(c, snap, env) <==>
               DistanceToAnchor(ActiveSession(snap.sessions, c.sessionId).value, c, env) <= 50.0)
  {
  }

  /** A claim accepted from a snapshot that obeys the unique constraint is for a device with no accepted scan there. */
  lemma {:induction false} AcceptedDeviceIsNew(c: Claim, snap: Tables, env: Env, tokenFormatOk: bool)
    requires UniqueDeviceScans(snap.scansValid)
    requires CheckClaim(c, snap, env, tokenFormatOk).Accept?
    ensures !HasDeviceScan(snap.scansValid, c.sessionId, c.deviceId)
  {
    if HasDeviceScan(snap.scansValid, c.sessionId, c.deviceId) {
      var i :| 0 <= i < |snap.scansValid| && snap.scansValid[i].sessionId == c.sessionId &&
               snap.scansValid[i].deviceId == c.deviceId;
      var p := (r: ValidScan) => r.sessionId == c.sessionId && r.deviceId == c.deviceId;
      SingleFindsUniqueRow(snap.scansValid, p, snap.scansValid[i]);
      AcceptIffAllGuardsHold(c, snap, env, tokenFormatOk);
    }
  }

  /** A claim for a session that is not active (ended, or unknown) is refused at the GPS or the session guard. */
  lemma {:induction false} InactiveSessionNeverAccepts(c: Claim, snap: Tables, env: Env, tokenFormatOk: bool)
    requires forall s :: s in snap.sessions && s.sessionId == c.sessionId ==> !s.isActive
    ensures CheckClaim(c, snap, env, tokenFormatOk).Reject?
    ensures CheckClaim(c, snap, env, tokenFormatOk).reason in {InvalidGpsFormat, SessionNotFoundOrInactive}
  {
    FilterKeepsMatches(snap.sessions, (s: Session) => s.sessionId == c.sessionId && s.isActive);
  }

  /** A claim whose session has no registry row (after the session ended, for instance) is never accepted. */
  lemma {:induction false} UnregisteredTokenNeverAccepts(c: Claim, snap: Tables, env: Env, tokenFormatOk: bool)
    requires forall t :: t in snap.qrTokens ==> t.sessionId != c.sessionId
    ensures !CheckClaim(c, snap, env, tokenFormatOk).Accept?
  {
    FilterKeepsMatches(snap.qrTokens, (t: QrToken) => t.sessionId == c.sessionId && t.token == c.token && t.expiresAt >= env.registryAt);
    AcceptIffAllGuardsHold(c, snap, env, tokenFormatOk);
    assert !GuardHolds(4, c, snap, env, tokenFormatOk);
  }

  /** The response: 400 for missing fields, 200 with `valid:false` and a reason, 200 with `valid:true`, or 500. */
  datatype SubmitResponse = MissingFieldsResponse | Rejected(reason: RejectReason) | Recorded(distanceM: int) | ServerError
  {
    function Status(): nat
    {
      match this
      case MissingFieldsResponse => 400
      case ServerError => 500
      case _ => 200
    }

    predicate IsValid()
    {
      Recorded?
    }
  }

  /** The log rows a best-effort write leaves behind: none when the write failed. */
  function Logged(row: InvalidScan, logFails: bool): seq<InvalidScan>
  {
    if logFails then [] else [row]
  }

  /**
   * `POST /api/scans/submit`. `snap` is what the guards' queries saw; the
   * commit goes to the live store. `logFails` and `insertFails` stand for a
   * failing `scans_invalid` write and an unavailable `scans_valid` insert.
   */
  method Submit(db: Db, q: ScanRequest, snap: Tables, env: Env, logFails: bool, insertFails: bool)
    returns (resp: SubmitResponse)
    requires db.Valid()
    modifies db`scansValid, db`scansInvalid
    ensures db.Valid()
    ensures var d := Decide(q, snap, env);
      match d
      case MissingFields =>
        resp == MissingFieldsResponse &&
        db.scansValid == old(db.scansValid) && db.scansInvalid == old(db.scansInvalid)
      case Reject(reason, logged) =>
        resp == Rejected(reason) &&
        db.scansValid == old(db.scansValid) && db.scansInvalid == old(db.scansInvalid) + Logged(logged, logFails)
      case Accept(row) =>
        if insertFails then
          resp == ServerError &&
          db.scansValid == old(db.scansValid) && db.scansInvalid == old(db.scansInvalid)
        else if HasDeviceScan(old(db.scansValid), row.sessionId, row.deviceId) then
          resp == Rejected(DeviceAlreadyScanned) &&
          db.scansValid == old(db.scansValid) &&
          db.scansInvalid == old(db.scansInvalid) +
                             Logged(InvalidRow(ClaimOf(q), env, DuplicateOnInsert, Some(row.distanceM)), logFails)
        else
          resp == Recorded(Round(row.distanceM)) &&
          db.scansValid == old(db.scansValid) + [row] && db.scansInvalid == old(db.scansInvalid)
    ensures snap == old(db.Snapshot()) && Decide(q, snap, env).Accept? && !insertFails ==> resp.IsValid()
  {
    var d := Decide(q, snap, env);
    match d {
      case MissingFields =>
        resp := MissingFieldsResponse;
      case Reject(reason, logged) =>
        db.InsertInvalidScan(logged, logFails);
        resp := Rejected(reason);
      case Accept(row) =>
        if snap == db.Snapshot() {
          AcceptedDeviceIsNew(ClaimOf(q), snap, env, TokenFormatOk(ClaimOf(q), env));
        }
        var outcome := db.InsertValidScan(row, insertFails);
        match outcome {
          case Inserted =>
            resp := Recorded(Round(row.distanceM));
          case UniqueViolation =>
            db.InsertInvalidScan(InvalidRow(ClaimOf(q), env, DuplicateOnInsert, Some(row.distanceM)), logFails);
            resp := Rejected(DeviceAlreadyScanned);
          case StorageError =>
            resp := ServerError;
        }
    }
  }
}
