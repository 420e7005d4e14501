/**
 * The rotating QR token codec: tokens are rendered as `<timestamp>:<hmac_hex>`
 * and checked, without the key, for shape and age.
 */
module Crypto {
  import opened Common
  import opened Js

  /** `maxAgeSeconds` when the caller gives none. */
  const DefaultMaxAgeSeconds: real := 10.0
  /** How far in the future (seconds) a token timestamp may lie. */
  const FutureToleranceSeconds: real := 5.0
  /** The key used when JWT_SECRET is unset or empty. */
  const FallbackSecret: string := "fallback-secret"

  predicate IsHexDigit(c: char)
  {
    '0' <= c <= '9' || 'a' <= c <= 'f'
  }

  /** A hex-encoded digest, as `digest('hex')` returns. */
  type HexDigest = s: string | forall i :: 0 <= i < |s| ==> IsHexDigit(s[i])

  /** The HMAC key: `process.env.JWT_SECRET || 'fallback-secret'`. */
  function MacKey(configured: Option<string>): (key: string)
    ensures key != ""
    ensures TruthyString(configured) ==> key == configured.value
    ensures !TruthyString(configured) ==> key == FallbackSecret
  {
    if TruthyString(configured) then configured.value else FallbackSecret
  }

  /** The message the MAC covers: session id, timestamp and a fresh nonce, joined by ':'. */
  function MacInput(sessionId: string, timestamp: int, nonce: string): string
  {
    sessionId + ":" + IntToString(timestamp) + ":" + nonce
  }

  /**
   * `generateQRToken`: the timestamp, a ':' and the keyed digest of
   * `MacInput`. The nonce and the HMAC-SHA256 function are parameters.
   */
  function GenerateQRToken(sessionId: string, timestamp: int, secret: Option<string>, nonce: string,
                           hmac: (string, string) -> HexDigest): (token: string)
    ensures Split(token, ':') == [IntToString(timestamp), hmac(MacKey(secret), MacInput(sessionId, timestamp, nonce))]
  {
    var digest := hmac(MacKey(secret), MacInput(sessionId, timestamp, nonce));
    SplitAround(IntToString(timestamp), digest, ':');
    IntToString(timestamp) + ":" + digest
  }

  /** The token's age in seconds at `now` (milliseconds): `(now - timestamp) / 1000`. */
  function AgeSeconds(now: int, timestamp: int): real
  {
    (now - timestamp) as real / 1000.0
  }

  /** The timestamp a token carries: its first ':'-separated part parsed, when there are exactly two parts. */
  function TokenTimestamp(token: string): Option<int>
  {
    var parts := Split(token, ':');
    if |parts| != 2 then None else ParseInt(parts[0])
  }

  /**
   * `validateQRTokenFormat(token, maxAgeSeconds)` at clock reading `now`:
   * two ':'-separated parts, a first part `parseInt` reads, and an age
   * neither below -5 seconds nor above `maxAgeSeconds`.
   */
  function ValidateQRTokenFormat(token: string, now: int, maxAgeSeconds: real): (ok: bool)
    ensures ok <==> TokenTimestamp(token).Some? &&
                    -5000 <= now - TokenTimestamp(token).value &&
                    (now - TokenTimestamp(token).value) as real <= maxAgeSeconds * 1000.0
  {
    var parts := Split(token, ':');
    if |parts| != 2 then false
    else
      match ParseInt(parts[0])
      case None => false
      case Some(timestamp) =>
        var tokenAge := AgeSeconds(now, timestamp);
        if tokenAge < -FutureToleranceSeconds then false
        else if tokenAge > maxAgeSeconds then false
        else true
  }

  /** A token whose separator count is not exactly one is refused at every clock reading. */
  lemma WrongShapeRejected(token: string, now: int, maxAgeSeconds: real)
    requires multiset(token)[':'] != 1
    ensures !ValidateQRTokenFormat(token, now, maxAgeSeconds)
  {
    SplitCount(token, ':');
  }

  /**
   * Round trip: a token generated at `timestamp` passes the format check
   * exactly at the clock readings from 5 seconds before `timestamp` up to
   * `maxAgeSeconds` after it, both ends included.
   */
  lemma {:induction false} GeneratedTokenAcceptedInWindow(sessionId: string, timestamp: int, secret: Option<string>,
                                                         nonce: string, hmac: (string, string) -> HexDigest,
                                                         now: int, maxAgeSeconds: real)
    ensures ValidateQRTokenFormat(GenerateQRToken(sessionId, timestamp, secret, nonce, hmac), now, maxAgeSeconds)
        <==> timestamp - 5000 <= now && (now - timestamp) as real <= maxAgeSeconds * 1000.0
  {
    var token := GenerateQRToken(sessionId, timestamp, secret, nonce, hmac);
    ParseIntOfIntToString(timestamp);
    assert TokenTimestamp(token) == Some(timestamp);
  }

  /**
   * `parseInt` reads only the leading digits of the first part: a first part
   * of digits followed by other characters still yields a timestamp.
   */
  lemma {:induction false} LeadingDigitsGiveTimestamp(digits: string, junk: string, tail: string)
    requires digits != [] && AllDigits(digits)
    requires junk == [] || !IsDigit(junk[0])
    requires ':' !in junk && ':' !in tail
    ensures TokenTimestamp(digits + junk + ":" + tail) == Some(DigitsValue(digits))
  {
    assert ':' !in digits + junk;
    assert digits + junk + ":" + tail == (digits + junk) + [':'] + tail;
    SplitAround(digits + junk, tail, ':');
    ParseIntReadsDigitPrefix(digits, junk);
  }

  /** Once a well-formed token is too old, it stays too old at every later clock reading. */
  lemma TooOldStaysRejected(token: string, now: int, later: int, maxAgeSeconds: real)
    requires TokenTimestamp(token).Some?
    requires AgeSeconds(now, TokenTimestamp(token).value) > maxAgeSeconds
    requires now <= later
    ensures !ValidateQRTokenFormat(token, later, maxAgeSeconds)
  {
  }
}
