/**
 * The bearer-credential prelude every owner endpoint starts with: an
 * `Authorization: Bearer <credential>` header, and the credential resolved to
 * a professor. The resolution (JWT check and professor lookup) is a finite
 * partial map from credential to professor id.
 */
module Auth {
  import opened Common

  const BearerPrefix: string := "Bearer "

  /** The two 401 answers: no bearer header, or a credential that names no professor. */
  datatype AuthFailure = Unauthorized | InvalidToken

  datatype AuthResult = Authenticated(professorId: string) | Failed(failure: AuthFailure)

  /** The credential: the header with its first seven characters (`substring(7)`) dropped. */
  function Credential(header: string): string
  {
    if |header| < 7 then "" else header[7..]
  }

  function Authenticate(header: Option<string>, professorOf: map<string, string>): (r: AuthResult)
    ensures r == Failed(Unauthorized) <==> header.None? || !(BearerPrefix <= header.value)
    ensures r.Authenticated? ==> Credential(header.value) in professorOf &&
                                 r.professorId == professorOf[Credential(header.value)]
    ensures r == Failed(InvalidToken) ==> Credential(header.value) !in professorOf
  {
    if header.None? || header.value == "" || !(BearerPrefix <= header.value) then Failed(Unauthorized)
    else
      var credential := Credential(header.value);
      if credential in professorOf then Authenticated(professorOf[credential]) else Failed(InvalidToken)
  }

  /** `substring(7)` removes exactly the "Bearer " prefix, so a header built from a credential resolves that credential. */
  lemma BearerHeaderResolvesCredential(credential: string, professorOf: map<string, string>)
    ensures Authenticate(Some(BearerPrefix + credential), professorOf) ==
            if credential in professorOf then Authenticated(professorOf[credential]) else Failed(InvalidToken)
  {
    var header := BearerPrefix + credential;
    assert BearerPrefix <= header;
    assert header[7..] == credential;
  }
}
