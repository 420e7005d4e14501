# Attendance protocol — a Dafny model

This project models the server side of a QR-based attendance system. A
professor starts a presence session anchored at their GPS position. A rotating
token is shown as a QR code. Students submit claims (token, position, device,
identity), and an ordered chain of guards either records each claim in
`scans_valid` or logs it to `scans_invalid`. The professor can end the session,
add a manual override, and list their sessions with scan counts.

The storage is a `Db` object whose fields are the tables `sessions`,
`qr_tokens`, `scans_valid`, `scans_invalid`, `used_server_nonces` and
`archived_scans`. Its primitive operations mirror single storage calls. The
`scans_valid` insert enforces the unique constraint on (session, device), and
the `sessions` insert enforces the primary key. The following are parameters:
the clock readings (integer milliseconds), the bearer-credential resolution (a
map from credential to professor id), the GPS validity predicate, the distance
function, the date parser, the HMAC, the generated nonces and ids, and a `bool`
per storage call that may fail.

Modules:

- `Common`: `Option`, and row filters modelling `.eq(...)` queries and `.single()`.
- `Js`: the JavaScript built-ins the handlers rely on. These are truthiness,
  `Math.round`, `parseInt(s, 10)`, `${n}` for integers and `split` on one
  character.
- `Crypto`: the token codec (`generateQRToken`, `validateQRTokenFormat`).
- `Store`: the table records and the `Db` class.
- `Auth`: the `Authorization: Bearer` prelude shared by the owner endpoints.
- `ScanSubmit`: the submission guard chain `Decide`, which is pure over a
  snapshot of the tables, and the commit method `Submit`.
- `SessionStart`, `SessionEnd`, `ManualOverride`: methods over `Db` with
  field-level `modifies` frames. Tables outside the frame are unchanged by
  construction.
- `SessionList`: the read-only listing, as a function of the tables.

Submission reads a snapshot `snap` that is separate from the live `Db`. This
lets the model state the race that the unique constraint closes. When the
snapshot is the live state, an accepted claim is always recorded, unless the
storage fails.

Where the design documentation and the code disagree, the model follows the code:

- Ending a session archives nothing and answers with the session id only. The
  design describes archival and an archived count.
- A claim coordinate of exactly 0 is falsy, so the claim is answered as if
  fields were missing. For example, a claim at (0.00025, 0) gets the
  missing-fields answer rather than a distance check.
- An unparsable `client_ts` gives a NaN skew, which passes the clock check.

## Model

| member | source | states |
|---|---|---|
| Common.SingleFindsUniqueRow | src/app/api/scans/submit/route.ts:99-106 | when at most one row satisfies a `.single()` query's condition, the query returns exactly the row that satisfies it, if there is one |
| Js.Round | src/app/api/scans/submit/route.ts:318 | `Math.round` yields the integer within half a unit, with a half rounded upwards |
| Js.ParseIntOfIntToString | src/lib/crypto.ts:25 | `parseInt` reads back every integer that `${timestamp}` rendered |
| Js.ParseIntReadsDigitPrefix | src/lib/crypto.ts:25-28 | `parseInt` accepts a leading run of digits and ignores what follows it |
| Js.IntToString | src/lib/crypto.ts:14 | a rendered integer holds no ':' and does not start with white space |
| Js.SplitCount | src/lib/crypto.ts:20-21 | `split(':')` yields one part more than the number of ':' characters |
| Js.SplitPiecesFree | src/lib/crypto.ts:20 | no part of a split holds the separator |
| Js.SplitJoin | src/lib/crypto.ts:20 | joining the parts with the separator gives back the token |
| Js.SplitAround | src/lib/crypto.ts:14-20 | splitting `a:b`, where neither side holds ':', yields exactly `[a, b]` |
| Crypto.MacKey | src/lib/crypto.ts:11 | the key is the configured secret when it is non-empty, and "fallback-secret" otherwise |
| Crypto.GenerateQRToken | src/lib/crypto.ts:10-15 | the token splits into exactly the rendered timestamp and the HMAC of `sessionId:timestamp:nonce` under the key |
| Crypto.ValidateQRTokenFormat | src/lib/crypto.ts:18-47 | accepted iff there are two parts, the first parses, and -5000 ms <= age <= maxAge·1000 ms, both bounds inclusive |
| Crypto.WrongShapeRejected | src/lib/crypto.ts:20-23 | a token without exactly one ':' is rejected at every clock reading |
| Crypto.LeadingDigitsGiveTimestamp | src/lib/crypto.ts:25-28 | a first part made of digits followed by a non-digit suffix still yields the digits' value as timestamp |
| Crypto.GeneratedTokenAcceptedInWindow | src/lib/crypto.ts:10-43 | round trip: a generated token is accepted exactly at the clock readings in [t-5000, t+maxAge·1000] ms |
| Crypto.TooOldStaysRejected | src/lib/crypto.ts:39-41 | once a token is too old, it stays rejected at every later reading |
| Auth.Authenticate | src/app/api/sessions/start/route.ts:8-24 | Unauthorized iff the header is missing or lacks "Bearer "; otherwise the credential after 7 characters resolves to the professor, or the answer is InvalidToken |
| Auth.BearerHeaderResolvesCredential | src/app/api/sessions/start/route.ts:15-16 | `substring(7)` of "Bearer " + c is exactly c |
| ScanSubmit.Tolerance | src/app/api/scans/submit/route.ts:6-7 | `Number(env) \|\| default`: an unset, NaN or 0 setting gives the default, and any other setting is used; the guards use it with defaults 50 m and 10 s |
| ScanSubmit.DefaultTolerancesApply | src/app/api/scans/submit/route.ts:6-7 | with the settings unset, NaN or 0, the clock guard passes iff the skew is at most 10 000 ms (or the date is NaN), and the distance guard passes iff the distance is at most 50 m |
| ScanSubmit.Decide | src/app/api/scans/submit/route.ts:30-39 | the verdict is the missing-fields answer iff some required field is falsy (`app_version` is optional) |
| ScanSubmit.ZeroCoordinateCountsAsMissing | src/app/api/scans/submit/route.ts:30-39 | a `client_lat` or `client_lon` of exactly 0 yields the missing-fields answer |
| ScanSubmit.FirstFailure | src/app/api/scans/submit/route.ts:41-254 | the guard it returns fails and every earlier guard holds: GPS, active session, new device, token format, registry, clock, distance |
| ScanSubmit.CheckClaim | src/app/api/scans/submit/route.ts:41-273 | every refusal logs one `scans_invalid` row with the matching reason and the token; an acceptance yields a row for the claimed session and device |
| ScanSubmit.RejectNamesFirstFailingGuard | src/app/api/scans/submit/route.ts:41-254 | the reason of a refusal names a guard that fails, and all guards before it hold (short-circuit order) |
| ScanSubmit.AcceptIffAllGuardsHold | src/app/api/scans/submit/route.ts:41-257 | a claim is accepted iff all seven guards hold |
| ScanSubmit.MeasuredRefusalsExceedTolerance | src/app/api/scans/submit/route.ts:194-254 | a skew refusal carries the measured skew, which exceeds the tolerance; a distance refusal carries and logs the distance, which exceeds the tolerance |
| ScanSubmit.ClockGuardBoundary | src/app/api/scans/submit/route.ts:194-199 | the clock guard passes iff the date is NaN or the skew is at most the tolerance (equality passes) |
| ScanSubmit.AcceptedRowDistance | src/app/api/scans/submit/route.ts:223-273 | an accepted row carries the distance from the active session's anchor, which is at most the tolerance, and the arrival time |
| ScanSubmit.AcceptedDeviceIsNew | src/app/api/scans/submit/route.ts:98-128 | under the unique constraint, an accepted device has no accepted scan in the snapshot |
| ScanSubmit.InactiveSessionNeverAccepts | src/app/api/scans/submit/route.ts:66-96 | a claim for an unknown or inactive session is refused at the GPS or session guard |
| ScanSubmit.UnregisteredTokenNeverAccepts | src/app/api/scans/submit/route.ts:156-187 | a claim whose session has no registry row is never accepted |
| ScanSubmit.Submit | src/app/api/scans/submit/route.ts:256-322 | missing fields: 400 and no write; refusal: its reason and at most one log row, never a `scans_valid` row; accept: one row and `Math.round(distance)`; unique violation: the device-already-scanned refusal plus a log row; storage error: 500; a failed log write never changes the answer; a live snapshot with working storage always records |
| Store.Db.InsertValidScan | src/app/api/scans/submit/route.ts:257-279 | the unique constraint on (session, device) refuses a second row and is kept |
| Store.Db.InsertInvalidScan | src/app/api/scans/submit/route.ts:329-352 | the log write appends one row, or nothing when storage fails; it never raises |
| Store.Db.InsertSession | src/app/api/sessions/start/route.ts:50-60 | appends the session unless the id is taken or storage fails; the primary key is kept |
| Store.Db.EndSessionRows | src/app/api/sessions/end/route.ts:49-55 | applies the end update to the rows with the id, or changes nothing on failure |
| Store.Db.DeleteTokensOf | src/app/api/sessions/end/route.ts:66-69 | removes the session's registry rows, or changes nothing on failure |
| Store.Db.InsertUsedNonce | src/app/api/scans/manual-override/route.ts:102-108 | appends the nonce row, or nothing on failure |
| SessionStart.ActiveSessionsOfFinds | src/app/api/sessions/start/route.ts:36-42 | the active-session query finds rows iff the professor has an active session |
| SessionStart.AppendKeepsOneActive | src/app/api/sessions/start/route.ts:36-60 | adding an active session for a professor with none keeps one active session per professor |
| SessionStart.StartSession | src/app/api/sessions/start/route.ts:6-75 | 401 on auth failure, 400 on bad GPS or an existing active session, 500 on insert failure, all without change; otherwise exactly one active session row for the caller, echoed back; one active session per professor is preserved when the lookup works |
| SessionEnd.OwnsSessionExactly | src/app/api/sessions/end/route.ts:35-46 | under the primary key, the ownership check passes iff a row with the id names the caller |
| SessionEnd.EndRowsChangesOnlyTarget | src/app/api/sessions/end/route.ts:49-55 | only the target rows change: `is_active` becomes false and `end_ts` is set, other columns and rows stay |
| SessionEnd.EndingTwiceRestamps | src/app/api/sessions/end/route.ts:35-55 | ending an ended session again only re-stamps `end_ts` |
| SessionEnd.EndRowsKeepsConstraints | src/app/api/sessions/end/route.ts:49-55 | the update keeps unique ids and one active session per professor, and leaves the target inactive |
| SessionEnd.DeleteSessionTokensExact | src/app/api/sessions/end/route.ts:66-69 | all tokens of the session go and every token of other sessions stays |
| SessionEnd.EndedSessionAcceptsNoScan | src/app/api/sessions/end/route.ts:48-69 | after a successful end, every claim for that session is refused at the GPS or session guard |
| SessionEnd.EndSession | src/app/api/sessions/end/route.ts:5-74 | 401, 400 for a falsy id, one 404 for unknown or foreign sessions, 500 with no change on update failure; otherwise the end update and the token deletion (ignored if it fails); scan tables untouched |
| ManualOverride.OverrideDeviceId | src/app/api/scans/manual-override/route.ts:63 | the device id starts with "manual-override-" |
| ManualOverride.OverrideDeviceIdsDistinct | src/app/api/scans/manual-override/route.ts:63-94 | overrides made at different milliseconds get different device ids |
| ManualOverride.OverrideRow | src/app/api/scans/manual-override/route.ts:63-83 | the row uses the session's anchor, distance 0, one `new Date()` reading as both `client_ts` and `scanned_at_server`, the override device id and client nonce, and app version "manual-override" |
| ManualOverride.AddManualOverride | src/app/api/scans/manual-override/route.ts:6-115 | 401, 400 for missing fields, 404 for an unknown session (active or not), 403 for a foreign one; a unique violation (400) or storage error (500) writes nothing; success writes the row, then the nonce row, and echoes the student |
| SessionList.InsertNewestFirst | src/app/api/sessions/list/route.ts:26-30 | inserting into a newest-first sequence keeps it newest first and adds exactly the new session |
| SessionList.NewestFirstOrder | src/app/api/sessions/list/route.ts:26-30 | the ordering is a permutation sorted by `start_ts` descending |
| SessionList.CountOrZero | src/app/api/sessions/list/route.ts:44-68 | a failed count yields 0 |
| SessionList.Summarize | src/app/api/sessions/list/route.ts:41-72 | the entry keeps the session and carries the three counts; `null` becomes 0; the archive count is 0 for an active session and is taken only for an ended one |
| SessionList.ListSessions | src/app/api/sessions/list/route.ts:5-76 | 401 iff auth fails; 500 iff the fetch fails; otherwise one entry per own session, in order |
| SessionList.OwnSessionsExact | src/app/api/sessions/list/route.ts:26-30 | the caller's sessions are exactly the rows naming them, newest first, each as often as the table holds it (once, under the primary key) |
| SessionList.ListedIsOwn | src/app/api/sessions/list/route.ts:26-72 | the listing shows only the caller's sessions, and all of them |
| SessionList.ListedNewestFirst | src/app/api/sessions/list/route.ts:26-72 | the listing is newest first, and active sessions show an archive count of 0 |

## Left out

- JSON parsing, HTTP transport, response message texts and `toFixed` formatting. Responses are datatypes that carry the status and the reason.
- `isValidGPS` and `calculateDistance` (`src/lib/gps`) are not part of this model. They are parameters. In the start handler, a missing coordinate is assumed to fail the GPS predicate.
- `getProfessorFromToken` (`src/lib/auth.ts`: JWT and bcrypt) is a map from credential to professor id.
- HMAC-SHA256, UUID and random nonce generation, and the clock are parameters.
- JavaScript number precision: integers and reals are unbounded. The rendering of very large numbers in exponent form is not modelled.
- Errors of read queries are left out, except the start handler's active-session lookup and the list handler's fetch and count queries. A `.single()` that matches no row, or several rows, is modelled.
- An exception thrown anywhere (the outer `catch` that answers 500) is not modelled.
- Concurrency is captured only through the separate snapshot of `Submit`, not through interleavings.
- Archival and token issuance (the token route) are not part of this model. No handler here writes `archived_scans`.
- SessionList.NewestFirstOrder: the database's order among sessions with equal `start_ts` is unspecified; the model uses a stable sort.
- ManualOverride.AddManualOverride: the body's `reason` field is read and never stored, so the model ignores it.
