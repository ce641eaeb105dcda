/** The four ceremony endpoints (webauthn_routes.py). Each options endpoint
    issues a challenge into the caller's session; each verify endpoint pops
    it, checks its age, hands the credential to the WebAuthn library and
    writes the outcome through to the credential store.

    Every handler is a method of `RelyingParty`, proved to leave the store,
    the session and the response that a step function computes from the
    old store and session; the properties of the ceremonies are lemmas about
    the step functions. The clock, the random challenge, the random user
    handle and the random nonces are parameters; the WebAuthn library is a
    record of functions (`None` where it raises). */
module Routes {
  import opened Wrappers
  import opened Octets
  import opened Text
  import opened Json
  import opened Base64
  import opened Db
  import opened CryptoStore

  /** How long an issued challenge stays valid, in seconds. */
  const CHALLENGE_TTL_SECONDS: int := 120

  const INVALID_REQUEST: string := "invalid request"
  const REGISTRATION_EXPIRED: string := "registration expired (start over)"
  const LOGIN_EXPIRED: string := "login expired (start over)"
  const VERIFICATION_FAILED: string := "webauthn verification failed"

  const REG_CHALLENGE: string := "reg_challenge"
  const REG_ISSUED_AT: string := "reg_challenge_issued_at"
  const AUTH_CHALLENGE: string := "auth_challenge"
  const AUTH_ISSUED_AT: string := "auth_challenge_issued_at"
  const AUTH_USERNAME: string := "auth_username"
  const USER: string := "user"

  /** The caller's session. */
  type Session = map<string, Json>

  /** What `verify_registration_response` returns. */
  datatype RegistrationVerification = RegistrationVerification(
    credentialId: Bytes, credentialPublicKey: Bytes, signCount: int,
    deviceType: Option<string>, backedUp: bool)

  /** What `verify_authentication_response` returns. */
  datatype AuthenticationVerification = AuthenticationVerification(
    newSignCount: int, deviceType: Option<string>, backedUp: bool)

  /** The WebAuthn library, for this relying party's id and origin and with
      user verification required: `base64urlToBytes(value)`,
      `verifyRegistration(credential, expectedChallenge)` and
      `verifyAuthentication(credential, expectedChallenge, publicKey,
      currentSignCount)`, each `None` where the call raises. */
  datatype WebAuthnLib = WebAuthnLib(
    base64urlToBytes: Json -> Option<Bytes>,
    verifyRegistration: (Json, Bytes) -> Option<RegistrationVerification>,
    verifyAuthentication: (Json, Bytes, Bytes, int) -> Option<AuthenticationVerification>)

  /** The library decodes what `b64url_encode` produced. */
  ghost predicate DecodesOwnEncoding(lib: WebAuthnLib) {
    forall b :: lib.base64urlToBytes(JStr(B64urlEncode(b))) == Some(b)
  }

  /** What the handlers reach through their imports. */
  datatype Env = Env(vault: Vault, lib: WebAuthnLib)

  /** What a handler answers: the options the library generates from the
      given challenge, user and credential ids; `{"verified": true}`; an
      `HTTPException` with status 400; or an uncaught exception (500). */
  datatype Response =
    | RegistrationOptions(challenge: Bytes, userHandle: Bytes, userName: string, excludeCredentials: seq<Bytes>)
    | AuthenticationOptions(challenge: Bytes, allowCredentials: seq<Bytes>)
    | Verified
    | BadRequest(detail: string)
    | ServerError

  /** The store, the session and the response after one request. */
  datatype Step = Step(tables: Tables, session: Session, response: Response)

  /** The session the client's cookie carries after a request. Starlette's
      session middleware writes the cookie when the handler returns or
      raises `HTTPException`; an uncaught exception is answered by the
      server-error middleware outside it, so the client keeps its old
      cookie. */
  function ClientSession(before: Session, st: Step): Session {
    if st.response == ServerError then before else st.session
  }

  /** Only the handlers write the session, and they store the issue times
      as integers. */
  ghost predicate SessionWellTyped(s: Session) {
    (REG_ISSUED_AT in s ==> s[REG_ISSUED_AT].JNum?) && (AUTH_ISSUED_AT in s ==> s[AUTH_ISSUED_AT].JNum?)
  }

  /** `b64url_encode`: base64url with the padding stripped. */
  function B64urlEncode(data: Bytes): string {
    UrlEncode(data)
  }

  /** What `b64url_encode` produces is spelt in the URL alphabet without
      `=` and decodes back to the same octets. */
  lemma B64urlEncodeUnpadded(data: Bytes)
    ensures var s := B64urlEncode(data);
      && (forall k :: 0 <= k < |s| ==> IsUrlAlphabetChar(s[k]) && s[k] != '=')
      && UrlDecode(s) == Some(data)
  {
    UrlEncodeAlphabet(data);
    UrlRoundTrip(data);
  }

  /** `(body.get("username") or "").strip()`; `None` where a truthy
      non-string has no `strip`. */
  function UsernameOf(body: map<string, Json>): Option<string> {
    var v := Get(body, "username");
    if !Truthy(v) then Some("")
    else if v.JStr? then Some(Strip(v.s))
    else None
  }

  /** `credential["id"]`; `None` where the lookup raises. */
  function CredentialIdOf(credential: Json): Option<Json> {
    if credential.JObj? && "id" in credential.fields then Some(credential.fields["id"]) else None
  }

  /** `credential.get("response", {}).get("transports")`; `None` where a
      `get` is missing. */
  function TransportsOf(credential: Json): Option<Json> {
    if !credential.JObj? then None
    else
      var response := if "response" in credential.fields then credential.fields["response"] else JObj(map[]);
      if response.JObj? then Some(Get(response.fields, "transports")) else None
  }

  /** A popped challenge is usable: both values are truthy and the age
      `now - issued_at` is at most the TTL. */
  predicate ChallengeFresh(challenge: Json, issuedAt: Json, now: int)
    requires issuedAt.JNull? || issuedAt.JNum?
  {
    Truthy(challenge) && Truthy(issuedAt) && !(now - issuedAt.n > CHALLENGE_TTL_SECONDS)
  }

  /** The credential ids decrypted from the rows, in order, or `None` if a
      decryption raises. */
  function DecryptedIds(v: Vault, rows: seq<CredentialRow>): (r: Option<seq<Bytes>>)
    ensures r.Some? <==> forall i :: 0 <= i < |rows| ==> DecryptCredentialId(v, rows[i]).Some?
    ensures r.Some? ==> |r.value| == |rows|
    ensures r.Some? ==> forall i :: 0 <= i < |rows| ==> r.value[i] == DecryptCredentialId(v, rows[i]).value
  {
    if rows == [] then Some([])
    else match DecryptCredentialId(v, rows[0])
      case None => None
      case Some(id) =>
        match DecryptedIds(v, rows[1..])
        case None => None
        case Some(rest) => Some([id] + rest)
  }

  // ---------------------------------------------------------------------
  // The handlers as functions of the store and the session
  // ---------------------------------------------------------------------

  /** The user `register_options` offers: the stored one, or the one
      `get_or_create_user` adds with the fresh handle. */
  function OfferedUser(t: Tables, username: string, userHandle: Bytes): (Tables, UserRow) {
    match GetUser(t, username)
    case Some(u) => (t, u)
    case None => GotOrCreated(t, username, userHandle)
  }

  /** `register_options`. */
  function RegisterOptionsStep(t: Tables, s: Session, env: Env, body: Json, now: int, challenge: Bytes, userHandle: Bytes): Step {
    if !body.JObj? then Step(t, s, ServerError)
    else match UsernameOf(body.fields)
      case None => Step(t, s, ServerError)
      case Some(username) =>
        if username == [] then Step(t, s, BadRequest(INVALID_REQUEST))
        else
          var (t1, user) := OfferedUser(t, username, userHandle);
          RegistrationIssued(t1, s, env, user, username, now, challenge)
  }

  /** The rest of `register_options` once the user is known: the exclude
      list, the challenge in the session and the options. */
  function RegistrationIssued(t: Tables, s: Session, env: Env, user: UserRow, username: string, now: int, challenge: Bytes): Step {
    match DecryptedIds(env.vault, ListUserCredentials(t, user.id))
    case None => Step(t, s, ServerError)
    case Some(exclude) =>
      Step(t, s[REG_CHALLENGE := JStr(B64urlEncode(challenge))][REG_ISSUED_AT := JNum(now)],
           RegistrationOptions(challenge, user.userHandle, username, exclude))
  }

  /** The `try` block of `register_verify`: decode the expected challenge,
      then verify; `None` where either raises. */
  function RegistrationResult(lib: WebAuthnLib, credential: Json, challenge: Json): Option<RegistrationVerification> {
    match lib.base64urlToBytes(challenge)
    case None => None
    case Some(expected) => lib.verifyRegistration(credential, expected)
  }

  /** `register_verify`. */
  function RegisterVerifyStep(t: Tables, s: Session, env: Env, body: Json, now: int, idNonce: Nonce, keyNonce: Nonce): Step
    requires SessionWellTyped(s)
  {
    if !body.JObj? then Step(t, s, ServerError)
    else match UsernameOf(body.fields)
      case None => Step(t, s, ServerError)
      case Some(username) =>
        var credential := Get(body.fields, "credential");
        if username == [] || !Truthy(credential) then Step(t, s, BadRequest(INVALID_REQUEST))
        else match GetUser(t, username)
          case None => Step(t, s, BadRequest(INVALID_REQUEST))
          case Some(user) =>
            var challenge := Get(s, REG_CHALLENGE);
            var issuedAt := Get(s, REG_ISSUED_AT);
            var s1 := s - {REG_CHALLENGE} - {REG_ISSUED_AT};
            if !ChallengeFresh(challenge, issuedAt, now) then Step(t, s1, BadRequest(REGISTRATION_EXPIRED))
            else RegistrationAccepted(t, s1, env, user, username, credential, challenge, idNonce, keyNonce)
  }

  /** The rest of `register_verify` once the challenge is accepted. */
  function RegistrationAccepted(t: Tables, s: Session, env: Env, user: UserRow, username: string, credential: Json,
                                challenge: Json, idNonce: Nonce, keyNonce: Nonce): Step {
    match RegistrationResult(env.lib, credential, challenge)
    case None => Step(t, s, BadRequest(VERIFICATION_FAILED))
    case Some(v) =>
      match TransportsOf(credential)
      case None => Step(t, s, ServerError)
      case Some(transports) =>
        Step(CredentialUpserted(t, Sealed(env.vault, user.id, v.credentialId, v.credentialPublicKey,
                                          v.signCount, transports, v.deviceType, v.backedUp, idNonce, keyNonce)),
             s[USER := JObj(map["username" := JStr(username)])], Verified)
  }

  /** `login_options`. */
  function LoginOptionsStep(t: Tables, s: Session, env: Env, body: Json, now: int, challenge: Bytes): Step {
    if !body.JObj? then Step(t, s, ServerError)
    else match UsernameOf(body.fields)
      case None => Step(t, s, ServerError)
      case Some(username) =>
        if username == [] then Step(t, s, BadRequest(INVALID_REQUEST))
        else match GetUser(t, username)
          case None => Step(t, s, BadRequest(INVALID_REQUEST))
          case Some(user) =>
            var creds := ListUserCredentials(t, user.id);
            if creds == [] then Step(t, s, BadRequest(INVALID_REQUEST))
            else AuthenticationIssued(t, s, env, username, creds, now, challenge)
  }

  /** The rest of `login_options` once the user's credentials are listed:
      the allow list, the challenge in the session and the options. */
  function AuthenticationIssued(t: Tables, s: Session, env: Env, username: string, creds: seq<CredentialRow>,
                                now: int, challenge: Bytes): Step {
    match DecryptedIds(env.vault, creds)
    case None => Step(t, s, ServerError)
    case Some(allow) =>
      Step(t, s[AUTH_CHALLENGE := JStr(B64urlEncode(challenge))][AUTH_ISSUED_AT := JNum(now)][AUTH_USERNAME := JStr(username)],
           AuthenticationOptions(challenge, allow))
  }

  /** `login_verify`. */
  function LoginVerifyStep(t: Tables, s: Session, env: Env, body: Json, now: int): Step
    requires SessionWellTyped(s)
  {
    if !body.JObj? then Step(t, s, ServerError)
    else
      var credential := Get(body.fields, "credential");
      if !Truthy(credential) then Step(t, s, BadRequest(INVALID_REQUEST))
      else
        var challenge := Get(s, AUTH_CHALLENGE);
        var issuedAt := Get(s, AUTH_ISSUED_AT);
        var s1 := s - {AUTH_CHALLENGE} - {AUTH_ISSUED_AT};
        if !ChallengeFresh(challenge, issuedAt, now) then Step(t, s1, BadRequest(LOGIN_EXPIRED))
        else LoginAccepted(t, s1, env, credential, challenge)
  }

  /** `login_verify` once the challenge is accepted: find the stored row by
      the SHA-256 of the presented id. */
  function LoginAccepted(t: Tables, s: Session, env: Env, credential: Json, challenge: Json): Step {
    match CredentialIdOf(credential)
    case None => Step(t, s, BadRequest(VERIFICATION_FAILED))
    case Some(idValue) =>
      match env.lib.base64urlToBytes(idValue)
      case None => Step(t, s, BadRequest(VERIFICATION_FAILED))
      case Some(credentialId) =>
        var credHash := env.vault.sha256(credentialId);
        match FindCredentialByHash(t, credHash)
        case None => Step(t, s, BadRequest(VERIFICATION_FAILED))
        case Some(row) => LoginWithRow(t, s, env, credential, challenge, credHash, row)
  }

  /** The `try` block of `login_verify` after the lookup: decode the
      expected challenge, then verify against the stored key and counter;
      `None` where either raises. */
  function AuthenticationResult(lib: WebAuthnLib, credential: Json, challenge: Json, publicKey: Bytes, signCount: int)
    : Option<AuthenticationVerification>
  {
    match lib.base64urlToBytes(challenge)
    case None => None
    case Some(expected) => lib.verifyAuthentication(credential, expected, publicKey, signCount)
  }

  /** The rest of `login_verify` once the stored row is found. */
  function LoginWithRow(t: Tables, s: Session, env: Env, credential: Json, challenge: Json, credHash: Bytes, row: CredentialRow): Step {
    match DecryptPublicKey(env.vault, row)
    case None => Step(t, s, ServerError)
    case Some(publicKey) =>
      match AuthenticationResult(env.lib, credential, challenge, publicKey, row.signCount)
      case None => Step(t, s, BadRequest(VERIFICATION_FAILED))
      case Some(v) =>
        var username := if AUTH_USERNAME in s then s[AUTH_USERNAME] else JStr("unknown");
        Step(SignCountUpdated(t, credHash, v.newSignCount, v.deviceType, v.backedUp),
             s[USER := JObj(map["username" := username])], Verified)
  }

  // ---------------------------------------------------------------------
  // Properties
  // ---------------------------------------------------------------------

  /** The stripped username is empty exactly when the field is missing or
      falsy or a string of whitespace only; a truthy non-string raises. */
  lemma UsernameBlank(body: map<string, Json>)
    ensures var v := Get(body, "username");
      && (UsernameOf(body) == Some([]) <==>
            !Truthy(v) || (v.JStr? && forall k :: 0 <= k < |v.s| ==> IsPyWhitespace(v.s[k])))
      && (UsernameOf(body).None? <==> Truthy(v) && !v.JStr?)
  {
    var v := Get(body, "username");
    if v.JStr? {
      StripCharacterised(v.s);
    }
  }

  /** Both options endpoints answer a blank username with "invalid request"
      and touch neither the store nor the session. */
  lemma OptionsRejectBlankUsername(t: Tables, s: Session, env: Env, body: Json, now: int, challenge: Bytes, userHandle: Bytes)
    requires body.JObj?
    requires var v := Get(body.fields, "username");
      !Truthy(v) || (v.JStr? && forall k :: 0 <= k < |v.s| ==> IsPyWhitespace(v.s[k]))
    ensures RegisterOptionsStep(t, s, env, body, now, challenge, userHandle) == Step(t, s, BadRequest(INVALID_REQUEST))
    ensures LoginOptionsStep(t, s, env, body, now, challenge) == Step(t, s, BadRequest(INVALID_REQUEST))
  {
    UsernameBlank(body.fields);
  }

  /** `register_options` creates the user only when the name is unknown: an
      existing user keeps the store as it was and is offered with its own
      handle; a new one is the single row `get_or_create_user` adds. On
      success the session holds the challenge, encoded, and `now`. */
  lemma RegisterOptionsUser(t: Tables, s: Session, env: Env, body: Json, now: int, challenge: Bytes, userHandle: Bytes)
    requires WellFormed(t) && body.JObj?
    requires UsernameOf(body.fields).Some? && UsernameOf(body.fields).value != []
    ensures var username := UsernameOf(body.fields).value;
      var st := RegisterOptionsStep(t, s, env, body, now, challenge, userHandle);
      && WellFormed(st.tables)
      && (GetUser(t, username).Some? ==> st.tables == t)
      && (GetUser(t, username).None? ==> st.tables == GotOrCreated(t, username, userHandle).0)
      && (st.response.RegistrationOptions? ==>
            && st.response.userHandle == GotOrCreated(t, username, userHandle).1.userHandle
            && (GetUser(t, username).Some? ==> st.response.userHandle == GetUser(t, username).value.userHandle)
            && st.response.userName == username && st.response.challenge == challenge
            && st.session == s[REG_CHALLENGE := JStr(B64urlEncode(challenge))][REG_ISSUED_AT := JNum(now)])
      && (!st.response.RegistrationOptions? ==> st.response == ServerError && st.session == s)
  {
    var username := UsernameOf(body.fields).value;
    var (t1, user) := OfferedUser(t, username, userHandle);
    assert RegisterOptionsStep(t, s, env, body, now, challenge, userHandle)
      == RegistrationIssued(t1, s, env, user, username, now, challenge);
    GotOrCreatedEffect(t, username, userHandle);
  }

  /** `login_options` gives the same "invalid request" for an unknown user
      and for a user without credentials, and then issues no challenge. */
  lemma LoginOptionsRejectsUnknownOrEmpty(t: Tables, s: Session, env: Env, body: Json, now: int, challenge: Bytes)
    requires body.JObj? && UsernameOf(body.fields).Some?
    requires var username := UsernameOf(body.fields).value;
      GetUser(t, username).None? || ListUserCredentials(t, GetUser(t, username).value.id) == []
    ensures LoginOptionsStep(t, s, env, body, now, challenge) == Step(t, s, BadRequest(INVALID_REQUEST))
  {
  }

  /** When `login_options` succeeds, the store is untouched; the session
      holds the new challenge, `now` and the username, replacing any pending
      challenge; and the allow list holds one decrypted id per stored
      credential of the user, in row order. */
  lemma LoginOptionsIssuesChallenge(t: Tables, s: Session, env: Env, body: Json, now: int, challenge: Bytes)
    requires LoginOptionsStep(t, s, env, body, now, challenge).response.AuthenticationOptions?
    ensures var st := LoginOptionsStep(t, s, env, body, now, challenge);
      var username := UsernameOf(body.fields).value;
      var creds := ListUserCredentials(t, GetUser(t, username).value.id);
      && body.JObj? && UsernameOf(body.fields).Some? && GetUser(t, username).Some?
      && st.tables == t
      && st.session == s[AUTH_CHALLENGE := JStr(B64urlEncode(challenge))][AUTH_ISSUED_AT := JNum(now)][AUTH_USERNAME := JStr(username)]
      && st.response.challenge == challenge
      && |st.response.allowCredentials| == |creds| > 0
      && forall i :: 0 <= i < |creds| ==> DecryptCredentialId(env.vault, creds[i]) == Some(st.response.allowCredentials[i])
  {
  }

  /** Every outcome of `login_options`: the store is never written, the
      answer is options, a server error or "invalid request", and only
      options change the session. */
  lemma LoginOptionsOutcomes(t: Tables, s: Session, env: Env, body: Json, now: int, challenge: Bytes)
    ensures var st := LoginOptionsStep(t, s, env, body, now, challenge);
      && st.tables == t
      && (st.response.AuthenticationOptions? || st.response == ServerError || st.response == BadRequest(INVALID_REQUEST))
      && (!st.response.AuthenticationOptions? ==> st.session == s)
  {
    var st := LoginOptionsStep(t, s, env, body, now, challenge);
    if !body.JObj? || UsernameOf(body.fields).None? {
      assert st == Step(t, s, ServerError);
    } else {
      var username := UsernameOf(body.fields).value;
      if username == [] || GetUser(t, username).None? {
        assert st == Step(t, s, BadRequest(INVALID_REQUEST));
      } else {
        var creds := ListUserCredentials(t, GetUser(t, username).value.id);
        if creds == [] {
          assert st == Step(t, s, BadRequest(INVALID_REQUEST));
        } else {
          assert st == AuthenticationIssued(t, s, env, username, creds, now, challenge);
        }
      }
    }
  }

  /** For a known user with stored credentials, `login_options` answers with
      options exactly when every stored id decrypts, and otherwise with a
      server error, leaving the session as it was. */
  lemma LoginOptionsDecryptOutcome(t: Tables, s: Session, env: Env, body: Json, now: int, challenge: Bytes)
    requires body.JObj? && UsernameOf(body.fields).Some? && UsernameOf(body.fields).value != []
    requires GetUser(t, UsernameOf(body.fields).value).Some?
    requires ListUserCredentials(t, GetUser(t, UsernameOf(body.fields).value).value.id) != []
    ensures var st := LoginOptionsStep(t, s, env, body, now, challenge);
      var creds := ListUserCredentials(t, GetUser(t, UsernameOf(body.fields).value).value.id);
      && (st.response.AuthenticationOptions? <==>
            forall i :: 0 <= i < |creds| ==> DecryptCredentialId(env.vault, creds[i]).Some?)
      && (!st.response.AuthenticationOptions? ==> st == Step(t, s, ServerError))
  {
    var username := UsernameOf(body.fields).value;
    var creds := ListUserCredentials(t, GetUser(t, username).value.id);
    assert LoginOptionsStep(t, s, env, body, now, challenge)
      == AuthenticationIssued(t, s, env, username, creds, now, challenge);
  }

  /** A challenge is accepted exactly when it is present, its issue time is
      present and non-zero, and its age is at most the TTL: an age equal to
      the TTL is accepted, and a missing and an expired challenge are
      answered alike. */
  lemma ChallengeFreshIff(challenge: Json, issuedAt: int, now: int)
    ensures ChallengeFresh(challenge, JNum(issuedAt), now) <==>
      Truthy(challenge) && issuedAt != 0 && now - issuedAt <= CHALLENGE_TTL_SECONDS
    ensures Truthy(challenge) && issuedAt != 0 ==> ChallengeFresh(challenge, JNum(issuedAt), issuedAt + CHALLENGE_TTL_SECONDS)
    ensures !ChallengeFresh(challenge, JNull, now)
  {
  }

  /** `login_verify` without a truthy `credential` stops before the pop:
      the pending challenge stays in the session. Once past that check,
      both challenge keys are gone from the session the handler leaves,
      whatever the outcome (the client's cookie: `LoginChallengeSpentForClient`). */
  lemma LoginVerifyConsumesChallenge(t: Tables, s: Session, env: Env, body: Json, now: int)
    requires SessionWellTyped(s) && body.JObj?
    ensures var st := LoginVerifyStep(t, s, env, body, now);
      && (!Truthy(Get(body.fields, "credential")) ==> st == Step(t, s, BadRequest(INVALID_REQUEST)))
      && (Truthy(Get(body.fields, "credential")) ==>
            AUTH_CHALLENGE !in st.session && AUTH_ISSUED_AT !in st.session && SessionWellTyped(st.session))
  {
  }

  /** What the client can send back after `login_verify` got past the
      `credential` check: a cookie without the challenge, unless the answer
      was a server error, which leaves the client's cookie, challenge
      included, as it was. */
  lemma LoginChallengeSpentForClient(t: Tables, s: Session, env: Env, body: Json, now: int)
    requires SessionWellTyped(s) && body.JObj? && Truthy(Get(body.fields, "credential"))
    ensures var st := LoginVerifyStep(t, s, env, body, now);
      var c := ClientSession(s, st);
      && (st.response != ServerError ==> AUTH_CHALLENGE !in c && AUTH_ISSUED_AT !in c)
      && (st.response == ServerError ==> c == s)
  {
    LoginVerifyConsumesChallenge(t, s, env, body, now);
  }

  /** Replaying a login in the same session fails: after one `login_verify`
      that got past the `credential` check, a second one is answered with
      "login expired (start over)" and changes nothing. */
  lemma ReplayedLoginRejected(t: Tables, s: Session, env: Env, first: Json, second: Json, now1: int, now2: int)
    requires SessionWellTyped(s)
    requires first.JObj? && Truthy(Get(first.fields, "credential"))
    requires second.JObj? && Truthy(Get(second.fields, "credential"))
    ensures var st := LoginVerifyStep(t, s, env, first, now1);
      SessionWellTyped(st.session)
      && LoginVerifyStep(st.tables, st.session, env, second, now2) == Step(st.tables, st.session, BadRequest(LOGIN_EXPIRED))
  {
    LoginVerifyConsumesChallenge(t, s, env, first, now1);
    var st := LoginVerifyStep(t, s, env, first, now1);
    assert st.session - {AUTH_CHALLENGE} - {AUTH_ISSUED_AT} == st.session;
  }

  /** `login_verify` answers "login expired (start over)" exactly when it
      got past the `credential` check with a challenge that is not fresh. */
  lemma LoginExpiredIff(t: Tables, s: Session, env: Env, body: Json, now: int)
    requires SessionWellTyped(s)
    ensures LoginVerifyStep(t, s, env, body, now).response == BadRequest(LOGIN_EXPIRED) <==>
      body.JObj? && Truthy(Get(body.fields, "credential"))
      && !ChallengeFresh(Get(s, AUTH_CHALLENGE), Get(s, AUTH_ISSUED_AT), now)
  {
  }

  /** `login_verify` writes to the store only when it answers "verified";
      every other answer, including the failures after the challenge was
      accepted, leaves the store as it was. */
  lemma LoginVerifyWritesOnlyOnSuccess(t: Tables, s: Session, env: Env, body: Json, now: int)
    requires SessionWellTyped(s)
    ensures var st := LoginVerifyStep(t, s, env, body, now);
      st.response != Verified ==> st.tables == t
    ensures var st := LoginVerifyStep(t, s, env, body, now);
      st.response in {Verified, ServerError, BadRequest(INVALID_REQUEST), BadRequest(LOGIN_EXPIRED), BadRequest(VERIFICATION_FAILED)}
  {
  }

  /** A successful login gives the row keyed by the SHA-256 of the presented
      id exactly the counter, device type and backup flag the library
      returned from the stored counter and key, changes no other row, and
      signs in the username the options step stored (or "unknown"). */
  lemma LoginVerifySuccess(t: Tables, s: Session, env: Env, body: Json, now: int)
    requires WellFormed(t) && SessionWellTyped(s)
    requires LoginVerifyStep(t, s, env, body, now).response == Verified
    ensures var st := LoginVerifyStep(t, s, env, body, now);
      var credential := body.fields["credential"];
      var credentialId := env.lib.base64urlToBytes(CredentialIdOf(credential).value).value;
      var credHash := env.vault.sha256(credentialId);
      var row := FindCredentialByHash(t, credHash).value;
      var v := AuthenticationResult(env.lib, credential, s[AUTH_CHALLENGE], DecryptPublicKey(env.vault, row).value, row.signCount).value;
      && ChallengeFresh(s[AUTH_CHALLENGE], s[AUTH_ISSUED_AT], now)
      && st.tables == SignCountUpdated(t, credHash, v.newSignCount, v.deviceType, v.backedUp)
      && WellFormed(st.tables)
      && FindCredentialByHash(st.tables, credHash)
           == Some(row.(signCount := v.newSignCount, deviceType := v.deviceType, backedUp := if v.backedUp then 1 else 0))
      && st.session[USER] == JObj(map["username" := if AUTH_USERNAME in s then s[AUTH_USERNAME] else JStr("unknown")])
      && AUTH_CHALLENGE !in st.session && AUTH_ISSUED_AT !in st.session
  {
    var credential := Get(body.fields, "credential");
    var s1 := s - {AUTH_CHALLENGE} - {AUTH_ISSUED_AT};
    assert LoginVerifyStep(t, s, env, body, now) == LoginAccepted(t, s1, env, credential, s[AUTH_CHALLENGE]);
    var credentialId := env.lib.base64urlToBytes(CredentialIdOf(credential).value).value;
    var credHash := env.vault.sha256(credentialId);
    var row := FindCredentialByHash(t, credHash).value;
    assert LoginAccepted(t, s1, env, credential, s[AUTH_CHALLENGE])
      == LoginWithRow(t, s1, env, credential, s[AUTH_CHALLENGE], credHash, row);
    LoginWithRowSuccess(t, s1, env, credential, s[AUTH_CHALLENGE], credHash, row);
  }

  /** The last stage of a successful login, on its own. */
  lemma LoginWithRowSuccess(t: Tables, s: Session, env: Env, credential: Json, challenge: Json, credHash: Bytes, row: CredentialRow)
    requires WellFormed(t) && row in t.credentials && row.credentialIdHash == credHash
    requires LoginWithRow(t, s, env, credential, challenge, credHash, row).response == Verified
    ensures var st := LoginWithRow(t, s, env, credential, challenge, credHash, row);
      var v := AuthenticationResult(env.lib, credential, challenge, DecryptPublicKey(env.vault, row).value, row.signCount).value;
      && st.tables == SignCountUpdated(t, credHash, v.newSignCount, v.deviceType, v.backedUp)
      && WellFormed(st.tables)
      && FindCredentialByHash(st.tables, credHash)
           == Some(row.(signCount := v.newSignCount, deviceType := v.deviceType, backedUp := if v.backedUp then 1 else 0))
      && st.session[USER] == JObj(map["username" := if AUTH_USERNAME in s then s[AUTH_USERNAME] else JStr("unknown")])
  {
    var st := LoginWithRow(t, s, env, credential, challenge, credHash, row);
    var v := AuthenticationResult(env.lib, credential, challenge, DecryptPublicKey(env.vault, row).value, row.signCount).value;
    SignCountUpdatedEffect(t, credHash, v.newSignCount, v.deviceType, v.backedUp);
    var row' := row.(signCount := v.newSignCount, deviceType := v.deviceType, backedUp := if v.backedUp then 1 else 0);
    var i :| 0 <= i < |t.credentials| && t.credentials[i] == row;
    assert st.tables.credentials[i] == row';
    FindCredentialUnique(st.tables, row');
  }

  /** `login_verify` past the `credential` check: a missing or stale
      challenge is answered "login expired (start over)" with only the pop
      done; a fresh one hands over to `LoginAccepted` on the popped session,
      which answers success, a server error or "webauthn verification
      failed", and changes nothing but on success. */
  lemma LoginVerifyStages(t: Tables, s: Session, env: Env, body: Json, now: int)
    requires SessionWellTyped(s) && body.JObj? && Truthy(Get(body.fields, "credential"))
    ensures var credential := Get(body.fields, "credential");
      var st := LoginVerifyStep(t, s, env, body, now);
      var s1 := s - {AUTH_CHALLENGE} - {AUTH_ISSUED_AT};
      && (!ChallengeFresh(Get(s, AUTH_CHALLENGE), Get(s, AUTH_ISSUED_AT), now) ==>
            st == Step(t, s1, BadRequest(LOGIN_EXPIRED)))
      && (ChallengeFresh(Get(s, AUTH_CHALLENGE), Get(s, AUTH_ISSUED_AT), now) ==>
            && st == LoginAccepted(t, s1, env, credential, Get(s, AUTH_CHALLENGE))
            && st.response in {Verified, ServerError, BadRequest(VERIFICATION_FAILED)}
            && (st.response != Verified ==> st.tables == t && st.session == s1))
  {
    var credential := Get(body.fields, "credential");
    var s1 := s - {AUTH_CHALLENGE} - {AUTH_ISSUED_AT};
    if ChallengeFresh(Get(s, AUTH_CHALLENGE), Get(s, AUTH_ISSUED_AT), now) {
      assert LoginVerifyStep(t, s, env, body, now) == LoginAccepted(t, s1, env, credential, Get(s, AUTH_CHALLENGE));
      LoginAcceptedFrame(t, s1, env, credential, Get(s, AUTH_CHALLENGE));
    }
  }

  /** Once the challenge is accepted, every failure folds into "webauthn
      verification failed" and leaves store and session alone: a missing or
      undecodable `credential["id"]`, an id whose hash no row has, and a
      verifier that raises. The one other answer is the server error of a
      stored public key that does not decrypt. */
  lemma LoginAcceptedFrame(t: Tables, s: Session, env: Env, credential: Json, challenge: Json)
    ensures var st := LoginAccepted(t, s, env, credential, challenge);
      var id := CredentialIdOf(credential);
      var credentialId := if id.Some? then env.lib.base64urlToBytes(id.value) else None;
      var found := if credentialId.Some? then FindCredentialByHash(t, env.vault.sha256(credentialId.value)) else None;
      && st.response in {Verified, ServerError, BadRequest(VERIFICATION_FAILED)}
      && (st.response != Verified ==> st.tables == t && st.session == s)
      && (found.None? ==> st.response == BadRequest(VERIFICATION_FAILED))
      && (st.response == ServerError <==> found.Some? && DecryptPublicKey(env.vault, found.value).None?)
      && (found.Some? && DecryptPublicKey(env.vault, found.value).Some? ==>
            (st.response == BadRequest(VERIFICATION_FAILED) <==>
               AuthenticationResult(env.lib, credential, challenge, DecryptPublicKey(env.vault, found.value).value,
                                    found.value.signCount).None?))
  {
    var id := CredentialIdOf(credential);
    var credentialId := if id.Some? then env.lib.base64urlToBytes(id.value) else None;
    if credentialId.Some? {
      var credHash := env.vault.sha256(credentialId.value);
      var found := FindCredentialByHash(t, credHash);
      if found.Some? {
        LoginWithRowFrame(t, s, env, credential, challenge, credHash, found.value);
      }
    }
  }

  /** Once the row is found: a server error exactly when its public key does
      not decrypt, then "webauthn verification failed" exactly when the
      assertion is rejected; only success changes the store or the session. */
  lemma LoginWithRowFrame(t: Tables, s: Session, env: Env, credential: Json, challenge: Json, credHash: Bytes, row: CredentialRow)
    ensures var st := LoginWithRow(t, s, env, credential, challenge, credHash, row);
      && st.response in {Verified, ServerError, BadRequest(VERIFICATION_FAILED)}
      && (st.response != Verified ==> st.tables == t && st.session == s)
      && (st.response == ServerError <==> DecryptPublicKey(env.vault, row).None?)
      && (DecryptPublicKey(env.vault, row).Some? ==>
            (st.response == BadRequest(VERIFICATION_FAILED) <==>
               AuthenticationResult(env.lib, credential, challenge, DecryptPublicKey(env.vault, row).value,
                                    row.signCount).None?))
  {
  }

  /** The relying party's id `localhost` as an AES-256 key of zeros, a
      cipher whose ciphertext is the plaintext, a hash that maps every id to
      `[7]`, and a library that accepts every assertion: enough to run
      `login_options` and `login_verify` on the scenario of
      `LoginAsAnotherOwner`. */
  function PermissiveEnv(): Env {
    Env(Vault(seq(32, _ => 0), Aead((k, n, p, a) => p, (k, n, c, a) => Some(c)), b => [7]),
        WebAuthnLib(j => Some([5]), (c, e) => None, (c, e, k, n) => Some(AuthenticationVerification(1, None, false))))
  }

  /** Two users, alice (id 1) and mallory (id 2), each with one credential:
      alice's under the hash `[8]`, mallory's under `[7]`. */
  function TwoUsersTwoCredentials(): Tables {
    Tables([UserRow(1, "alice", [1]), UserRow(2, "mallory", [2])],
           [CredentialRow(1, 1, [8], [], [], 0, JArr([]), None, 0),
            CredentialRow(2, 2, [7], [], [], 0, JArr([]), None, 0)], 2, 2)
  }

  /** The two users and two credentials satisfy the schema. */
  lemma TwoUsersWellFormed()
    ensures WellFormed(TwoUsersTwoCredentials())
  {
    var t := TwoUsersTwoCredentials();
    assert forall u :: u in t.users ==> u == t.users[0] || u == t.users[1];
    assert forall c :: c in t.credentials ==> c == t.credentials[0] || c == t.credentials[1];
  }

  /** The request body with which `login_options` is asked for "alice". */
  function AliceLoginBody(): Json {
    JObj(map["username" := JStr("alice")])
  }

  /** The session `login_options` leaves for "alice" with an encoded
      challenge issued at time 100. */
  function AliceSession(challenge: string): Session {
    map[AUTH_CHALLENGE := JStr(challenge), AUTH_ISSUED_AT := JNum(100), AUTH_USERNAME := JStr("alice")]
  }

  /** A username with no whitespace at either end is read back unchanged. */
  lemma UsernameOfTrimmed(name: string)
    requires name != [] && !IsPyWhitespace(name[0]) && !IsPyWhitespace(name[|name| - 1])
    ensures UsernameOf(map["username" := JStr(name)]) == Some(name)
  {
    StripTrimmed(name);
  }

  /** `(body.get("username") or "").strip()` reads "alice" from the body. */
  lemma AliceUsername()
    ensures UsernameOf(AliceLoginBody().fields) == Some("alice")
  {
    var name := "alice";
    assert name[0] == 'a' && name[|name| - 1] == 'e';
    UsernameOfTrimmed(name);
  }

  /** alice is the first user and owns exactly the first row. */
  lemma AliceRows()
    ensures GetUser(TwoUsersTwoCredentials(), "alice") == Some(UserRow(1, "alice", [1]))
    ensures ListUserCredentials(TwoUsersTwoCredentials(), 1) == [TwoUsersTwoCredentials().credentials[0]]
  {
    var rows := TwoUsersTwoCredentials().credentials;
    assert CredentialsOf(rows[1..][1..], 1) == [];
    assert CredentialsOf(rows[1..], 1) == [];
  }

  /** Anyone may start a login for "alice": `login_options` answers with
      options and leaves a session naming her, with the challenge issued at
      time 100. */
  lemma AliceLoginStarted(challenge: Bytes)
    requires challenge != []
    ensures var t := TwoUsersTwoCredentials();
      var st := LoginOptionsStep(t, map[], PermissiveEnv(), AliceLoginBody(), 100, challenge);
      && st.tables == t && st.response.AuthenticationOptions?
      && st.session == AliceSession(B64urlEncode(challenge))
      && B64urlEncode(challenge) != []
  {
    var t := TwoUsersTwoCredentials();
    var env := PermissiveEnv();
    AliceUsername();
    AliceRows();
    assert LoginOptionsStep(t, map[], env, AliceLoginBody(), 100, challenge)
      == AuthenticationIssued(t, map[], env, "alice", [t.credentials[0]], 100, challenge);
    assert DecryptCredentialId(env.vault, t.credentials[0]) == Some([]);
    assert DecryptedIds(env.vault, [t.credentials[0]]).Some?;
    UrlEncodeLength(challenge);
  }

  /** `login_verify` from alice's session, answered with mallory's
      credential: her row is found, the assertion verifies, and the session
      signs in alice. */
  lemma MalloryAnswersForAlice(challenge: string)
    requires challenge != []
    ensures var t := TwoUsersTwoCredentials();
      var body := JObj(map["credential" := JObj(map["id" := JStr("m")])]);
      var st := LoginVerifyStep(t, AliceSession(challenge), PermissiveEnv(), body, 100);
      && FindCredentialByHash(t, [7]) == Some(t.credentials[1])
      && st.response == Verified
      && USER in st.session && st.session[USER] == JObj(map["username" := JStr("alice")])
  {
    var t := TwoUsersTwoCredentials();
    var env := PermissiveEnv();
    var s := AliceSession(challenge);
    var body := JObj(map["credential" := JObj(map["id" := JStr("m")])]);
    var credential := JObj(map["id" := JStr("m")]);
    var s1 := s - {AUTH_CHALLENGE} - {AUTH_ISSUED_AT};
    var row := t.credentials[1];
    assert FindCredentialByHash(t, [7]) == Some(row);
    assert Get(body.fields, "credential") == credential;
    assert Get(s, AUTH_CHALLENGE) == JStr(challenge) && Truthy(JStr(challenge));
    assert ChallengeFresh(Get(s, AUTH_CHALLENGE), Get(s, AUTH_ISSUED_AT), 100);
    assert LoginVerifyStep(t, s, env, body, 100) == LoginAccepted(t, s1, env, credential, JStr(challenge));
    assert CredentialIdOf(credential) == Some(JStr("m"));
    assert env.lib.base64urlToBytes(JStr("m")) == Some([5]);
    assert env.vault.sha256([5]) == [7];
    assert LoginAccepted(t, s1, env, credential, JStr(challenge)) == LoginWithRow(t, s1, env, credential, JStr(challenge), [7], row);
    assert DecryptPublicKey(env.vault, row) == Some([]);
    assert AUTH_USERNAME in s1 && s1[AUTH_USERNAME] == JStr("alice");
  }

  /** As written, `login_verify` signs in whoever `login_options` named,
      never comparing that user with the owner of the credential that
      answered: mallory starts a login for "alice", answers with her own
      credential, and is signed in as alice, whatever the challenge. */
  lemma LoginAsAnotherOwner(challenge: Bytes)
    requires challenge != []
    ensures var t := TwoUsersTwoCredentials();
      var env := PermissiveEnv();
      var start := LoginOptionsStep(t, map[], env, AliceLoginBody(), 100, challenge);
      var s := AliceSession(B64urlEncode(challenge));
      var body := JObj(map["credential" := JObj(map["id" := JStr("m")])]);
      var st := LoginVerifyStep(t, s, env, body, 100);
      && WellFormed(t) && start.response.AuthenticationOptions? && start.tables == t && start.session == s
      && GetUser(t, "alice") == Some(t.users[0]) && FindCredentialByHash(t, [7]) == Some(t.credentials[1])
      && t.credentials[1].userId != t.users[0].id
      && st.response == Verified && USER in st.session && st.session[USER] == JObj(map["username" := JStr("alice")])
  {
    AliceLoginStarted(challenge);
    AliceRows();
    TwoUsersWellFormed();
    MalloryAnswersForAlice(B64urlEncode(challenge));
  }

  /** The stage after the lookup with the owner check the source lacks: the
      found credential must belong to the user `login_options` named, or
      the answer is "webauthn verification failed" and nothing changes. */
  function LoginWithOwnedRow(t: Tables, s: Session, env: Env, credential: Json, challenge: Json, credHash: Bytes, row: CredentialRow): (st: Step)
    ensures st.response != Verified ==> st.tables == t
    ensures st.response == Verified ==>
      && AUTH_USERNAME in s && s[AUTH_USERNAME].JStr?
      && GetUser(t, s[AUTH_USERNAME].s).Some? && GetUser(t, s[AUTH_USERNAME].s).value.id == row.userId
      && USER in st.session && st.session[USER] == JObj(map["username" := s[AUTH_USERNAME]])
  {
    var owner := if AUTH_USERNAME in s && s[AUTH_USERNAME].JStr? then GetUser(t, s[AUTH_USERNAME].s) else None;
    if owner.None? || owner.value.id != row.userId then Step(t, s, BadRequest(VERIFICATION_FAILED))
    else LoginWithRow(t, s, env, credential, challenge, credHash, row)
  }

  /** With the owner check, the scenario of `LoginAsAnotherOwner` is
      answered "webauthn verification failed" and signs nobody in: the
      session left by `login_options` for "alice", after the pop, meets
      mallory's row. */
  lemma OwnerCheckRejectsAnotherOwner(challenge: Bytes)
    requires challenge != []
    ensures var t := TwoUsersTwoCredentials();
      var env := PermissiveEnv();
      var start := LoginOptionsStep(t, map[], env, AliceLoginBody(), 100, challenge);
      var s1 := start.session - {AUTH_CHALLENGE} - {AUTH_ISSUED_AT};
      var st := LoginWithOwnedRow(t, s1, env, JObj(map["id" := JStr("m")]), JStr(B64urlEncode(challenge)), [7], t.credentials[1]);
      st == Step(t, s1, BadRequest(VERIFICATION_FAILED))
  {
    AliceLoginStarted(challenge);
    AliceRows();
  }

  /** `register_verify` with a blank username, a falsy `credential` or an
      unknown user stops before the pop: store and session stay as they
      were, pending challenge included. Once past those checks, both
      challenge keys are gone from the session the handler leaves, whatever the
      outcome (the client's cookie: `RegisterChallengeSpentForClient`). */
  lemma RegisterVerifyConsumesChallenge(t: Tables, s: Session, env: Env, body: Json, now: int, idNonce: Nonce, keyNonce: Nonce)
    requires SessionWellTyped(s) && body.JObj? && UsernameOf(body.fields).Some?
    ensures var username := UsernameOf(body.fields).value;
      var st := RegisterVerifyStep(t, s, env, body, now, idNonce, keyNonce);
      var guarded := username != [] && Truthy(Get(body.fields, "credential")) && GetUser(t, username).Some?;
      && (!guarded ==> st == Step(t, s, BadRequest(INVALID_REQUEST)))
      && (guarded ==> REG_CHALLENGE !in st.session && REG_ISSUED_AT !in st.session && SessionWellTyped(st.session))
  {
    RegisterVerifyStages(t, s, env, body, now, idNonce, keyNonce);
  }

  /** What the client can send back after `register_verify` got past its
      guards: a cookie without the challenge, unless the answer was a server
      error, which leaves the client's cookie as it was. */
  lemma RegisterChallengeSpentForClient(t: Tables, s: Session, env: Env, body: Json, now: int, idNonce: Nonce, keyNonce: Nonce)
    requires SessionWellTyped(s) && body.JObj? && UsernameOf(body.fields).Some?
    requires UsernameOf(body.fields).value != [] && Truthy(Get(body.fields, "credential"))
    requires GetUser(t, UsernameOf(body.fields).value).Some?
    ensures var st := RegisterVerifyStep(t, s, env, body, now, idNonce, keyNonce);
      var c := ClientSession(s, st);
      && (st.response != ServerError ==> REG_CHALLENGE !in c && REG_ISSUED_AT !in c)
      && (st.response == ServerError ==> c == s)
  {
    RegisterVerifyConsumesChallenge(t, s, env, body, now, idNonce, keyNonce);
  }

  /** `register_verify` by stages: where it stops before the pop, where it
      stops at the challenge, and the stage it hands over to once the
      challenge is accepted, with what that stage writes. */
  lemma RegisterVerifyStages(t: Tables, s: Session, env: Env, body: Json, now: int, idNonce: Nonce, keyNonce: Nonce)
    requires SessionWellTyped(s) && body.JObj? && UsernameOf(body.fields).Some?
    ensures var username := UsernameOf(body.fields).value;
      var credential := Get(body.fields, "credential");
      var st := RegisterVerifyStep(t, s, env, body, now, idNonce, keyNonce);
      var s1 := s - {REG_CHALLENGE} - {REG_ISSUED_AT};
      && (!(username != [] && Truthy(credential) && GetUser(t, username).Some?) ==> st == Step(t, s, BadRequest(INVALID_REQUEST)))
      && (username != [] && Truthy(credential) && GetUser(t, username).Some? ==>
            && SessionWellTyped(s1) && REG_CHALLENGE !in s1 && REG_ISSUED_AT !in s1
            && (!ChallengeFresh(Get(s, REG_CHALLENGE), Get(s, REG_ISSUED_AT), now) ==>
                  st == Step(t, s1, BadRequest(REGISTRATION_EXPIRED)))
            && (ChallengeFresh(Get(s, REG_CHALLENGE), Get(s, REG_ISSUED_AT), now) ==>
                  && st == RegistrationAccepted(t, s1, env, GetUser(t, username).value, username, credential,
                                                Get(s, REG_CHALLENGE), idNonce, keyNonce)
                  && st.response in {Verified, ServerError, BadRequest(VERIFICATION_FAILED)}
                  && (st.response != Verified ==> st.tables == t && st.session == s1)
                  && (st.response == Verified ==> st.session == s1[USER := JObj(map["username" := JStr(username)])])))
  {
    var username := UsernameOf(body.fields).value;
    var credential := Get(body.fields, "credential");
    var st := RegisterVerifyStep(t, s, env, body, now, idNonce, keyNonce);
    if username != [] && Truthy(credential) && GetUser(t, username).Some? {
      var s1 := s - {REG_CHALLENGE} - {REG_ISSUED_AT};
      assert SessionWellTyped(s1) && REG_CHALLENGE !in s1 && REG_ISSUED_AT !in s1;
      var challenge := Get(s, REG_CHALLENGE);
      if ChallengeFresh(challenge, Get(s, REG_ISSUED_AT), now) {
        var user := GetUser(t, username).value;
        assert st == RegistrationAccepted(t, s1, env, user, username, credential, challenge, idNonce, keyNonce);
        RegistrationAcceptedFrame(t, s1, env, user, username, credential, challenge, idNonce, keyNonce);
      } else {
        assert st == Step(t, s1, BadRequest(REGISTRATION_EXPIRED));
      }
    } else {
      assert st == Step(t, s, BadRequest(INVALID_REQUEST));
    }
  }

  /** After the challenge is accepted, `register_verify` writes only the
      `user` key of the session, and writes it, and the store, only when it
      answers "verified". */
  lemma RegistrationAcceptedFrame(t: Tables, s: Session, env: Env, user: UserRow, username: string, credential: Json,
                                  challenge: Json, idNonce: Nonce, keyNonce: Nonce)
    ensures var st := RegistrationAccepted(t, s, env, user, username, credential, challenge, idNonce, keyNonce);
      && st.response in {Verified, ServerError, BadRequest(VERIFICATION_FAILED)}
      && (st.response != Verified ==> st.tables == t && st.session == s)
      && (st.response == Verified ==> st.session == s[USER := JObj(map["username" := JStr(username)])])
  {
  }

  /** `register_verify` answers "registration expired (start over)"
      exactly when it got past its checks with a challenge that is not
      fresh, and it writes to the store only when it answers "verified". */
  lemma RegisterVerifyOutcomes(t: Tables, s: Session, env: Env, body: Json, now: int, idNonce: Nonce, keyNonce: Nonce)
    requires SessionWellTyped(s)
    ensures var st := RegisterVerifyStep(t, s, env, body, now, idNonce, keyNonce);
      && (st.response == BadRequest(REGISTRATION_EXPIRED) <==>
            body.JObj? && UsernameOf(body.fields).Some? && UsernameOf(body.fields).value != []
            && Truthy(Get(body.fields, "credential")) && GetUser(t, UsernameOf(body.fields).value).Some?
            && !ChallengeFresh(Get(s, REG_CHALLENGE), Get(s, REG_ISSUED_AT), now))
      && (st.response != Verified ==> st.tables == t)
  {
    if body.JObj? && UsernameOf(body.fields).Some? {
      RegisterVerifyStages(t, s, env, body, now, idNonce, keyNonce);
    }
  }

  /** A successful registration stores the credential the library verified
      for the named user: looking it up by the SHA-256 of its id finds a row
      of that user whose blobs decrypt to the id and the public key, with
      the library's counter, device type and backup flag; the session then
      signs in that username. The store is exactly the upsert of that sealed
      row, and the session loses the two challenge keys and gains the user. */
  lemma RegisterVerifySuccess(t: Tables, s: Session, env: Env, body: Json, now: int, idNonce: Nonce, keyNonce: Nonce)
    requires WellFormed(t) && SessionWellTyped(s) && OpensWhatItSeals(env.vault.aead)
    requires RegisterVerifyStep(t, s, env, body, now, idNonce, keyNonce).response == Verified
    ensures var st := RegisterVerifyStep(t, s, env, body, now, idNonce, keyNonce);
      var username := UsernameOf(body.fields).value;
      var user := GetUser(t, username).value;
      var v := RegistrationResult(env.lib, body.fields["credential"], s[REG_CHALLENGE]).value;
      var found := FindCredentialByHash(st.tables, env.vault.sha256(v.credentialId));
      && ChallengeFresh(s[REG_CHALLENGE], s[REG_ISSUED_AT], now)
      && WellFormed(st.tables)
      && found.Some? && found.value.userId == user.id
      && DecryptCredentialId(env.vault, found.value) == Some(v.credentialId)
      && DecryptPublicKey(env.vault, found.value) == Some(v.credentialPublicKey)
      && found.value.signCount == v.signCount
      && found.value.deviceType == v.deviceType
      && found.value.backedUp == (if v.backedUp then 1 else 0)
      && st.session[USER] == JObj(map["username" := JStr(username)])
      && TransportsOf(body.fields["credential"]).Some?
      && st.tables == CredentialUpserted(t, Sealed(env.vault, user.id, v.credentialId, v.credentialPublicKey, v.signCount,
                                                   TransportsOf(body.fields["credential"]).value, v.deviceType, v.backedUp,
                                                   idNonce, keyNonce))
      && st.session == (s - {REG_CHALLENGE} - {REG_ISSUED_AT})[USER := JObj(map["username" := JStr(username)])]
  {
    var username := UsernameOf(body.fields).value;
    var user := GetUser(t, username).value;
    var credential := Get(body.fields, "credential");
    var s1 := s - {REG_CHALLENGE} - {REG_ISSUED_AT};
    assert RegisterVerifyStep(t, s, env, body, now, idNonce, keyNonce)
      == RegistrationAccepted(t, s1, env, user, username, credential, s[REG_CHALLENGE], idNonce, keyNonce);
    var v := RegistrationResult(env.lib, credential, s[REG_CHALLENGE]).value;
    var transports := TransportsOf(credential).value;
    SavedCredentialReadsBack(t, env.vault, user.id, v.credentialId, v.credentialPublicKey, v.signCount,
                             transports, v.deviceType, v.backedUp, idNonce, keyNonce);
  }

  /** The challenge an options endpoint stores decodes, through the
      library, to the challenge the options carry, so a verify step in time
      hands the library the very challenge the browser was sent. */
  lemma StoredChallengeDecodes(t: Tables, s: Session, env: Env, body: Json, now: int, challenge: Bytes)
    requires DecodesOwnEncoding(env.lib)
    requires LoginOptionsStep(t, s, env, body, now, challenge).response.AuthenticationOptions?
    ensures var st := LoginOptionsStep(t, s, env, body, now, challenge);
      env.lib.base64urlToBytes(st.session[AUTH_CHALLENGE]) == Some(challenge)
  {
    LoginOptionsIssuesChallenge(t, s, env, body, now, challenge);
  }

  // ---------------------------------------------------------------------
  // The handlers
  // ---------------------------------------------------------------------

  /** The loop that decrypts the id of every stored credential of a user
      into the exclude or allow list. */
  method DecryptCredentialIds(v: Vault, rows: seq<CredentialRow>) returns (ids: Option<seq<Bytes>>)
    ensures ids == DecryptedIds(v, rows)
  {
    var list: seq<Bytes> := [];
    for i := 0 to |rows|
      invariant |list| == i
      invariant forall k :: 0 <= k < i ==> DecryptCredentialId(v, rows[k]) == Some(list[k])
    {
      var id := DecryptCredentialId(v, rows[i]);
      if id.None? {
        return None;
      }
      list := list + [id.value];
    }
    assert forall k :: 0 <= k < |rows| ==> DecryptCredentialId(v, rows[k]).Some?;
    ghost var expected := DecryptedIds(v, rows);
    assert expected.value == list;
    return Some(list);
  }

  /** The relying party as one caller sees it: that caller's session, the
      credential store and what the handlers import. */
  class RelyingParty {
    var session: Session
    const store: Store
    const env: Env

    ghost predicate Valid()
      reads this, store
    {
      store.Valid() && SessionWellTyped(session)
    }

    /** A caller without a session yet. */
    constructor (store: Store, env: Env)
      requires store.Valid()
      ensures Valid() && session == map[] && this.store == store && this.env == env
    {
      this.store := store;
      this.env := env;
      session := map[];
    }

    /** `register_options`. */
    method RegisterOptions(body: Json, now: int, challenge: Bytes, userHandle: Bytes) returns (r: Response)
      requires Valid()
      modifies this, store
      ensures Valid()
      ensures Step(store.State(), session, r)
        == RegisterOptionsStep(old(store.State()), old(session), env, body, now, challenge, userHandle)
    {
      if !body.JObj? {
        return ServerError;
      }
      var username := UsernameOf(body.fields);
      if username.None? {
        return ServerError;
      }
      if username.value == [] {
        return BadRequest(INVALID_REQUEST);
      }
      ghost var t := store.State();
      var found := GetUser(store.State(), username.value);
      var user: UserRow;
      if found.None? {
        user := store.GetOrCreateUser(username.value, userHandle);
      } else {
        user := found.value;
      }
      assert (store.State(), user) == OfferedUser(t, username.value, userHandle);
      assert RegisterOptionsStep(t, old(session), env, body, now, challenge, userHandle)
        == RegistrationIssued(store.State(), session, env, user, username.value, now, challenge);
      r := IssueRegistration(user, username.value, now, challenge);
    }

    /** The end of `register_options`: the exclude list, then the challenge
        into the session. */
    method IssueRegistration(user: UserRow, username: string, now: int, challenge: Bytes) returns (r: Response)
      requires Valid()
      modifies this
      ensures Valid()
      ensures Step(store.State(), session, r) == RegistrationIssued(store.State(), old(session), env, user, username, now, challenge)
    {
      var exclude := DecryptCredentialIds(env.vault, ListUserCredentials(store.State(), user.id));
      if exclude.None? {
        return ServerError;
      }
      session := session[REG_CHALLENGE := JStr(B64urlEncode(challenge))];
      session := session[REG_ISSUED_AT := JNum(now)];
      return RegistrationOptions(challenge, user.userHandle, username, exclude.value);
    }

    /** `session.pop(key, None)`. */
    method Pop(key: string) returns (v: Json)
      requires Valid()
      modifies this
      ensures Valid()
      ensures v == Get(old(session), key) && session == old(session) - {key}
    {
      v := Get(session, key);
      session := session - {key};
    }

    /** `register_verify`. */
    method RegisterVerify(body: Json, now: int, idNonce: Nonce, keyNonce: Nonce) returns (r: Response)
      requires Valid()
      modifies this, store
      ensures Valid()
      ensures Step(store.State(), session, r)
        == RegisterVerifyStep(old(store.State()), old(session), env, body, now, idNonce, keyNonce)
    {
      ghost var t0, s0 := store.State(), session;
      if !body.JObj? {
        return ServerError;
      }
      var username := UsernameOf(body.fields);
      if username.None? {
        return ServerError;
      }
      var credential := Get(body.fields, "credential");
      if username.value == [] || !Truthy(credential) {
        return BadRequest(INVALID_REQUEST);
      }
      var user := GetUser(store.State(), username.value);
      if user.None? {
        return BadRequest(INVALID_REQUEST);
      }
      var challenge := Pop(REG_CHALLENGE);
      var issuedAt := Pop(REG_ISSUED_AT);
      assert store.State() == t0 && session == s0 - {REG_CHALLENGE} - {REG_ISSUED_AT};
      if !ChallengeFresh(challenge, issuedAt, now) {
        return BadRequest(REGISTRATION_EXPIRED);
      }
      assert RegisterVerifyStep(t0, s0, env, body, now, idNonce, keyNonce)
        == RegistrationAccepted(store.State(), session, env, user.value, username.value, credential, challenge, idNonce, keyNonce);
      r := AcceptRegistration(user.value, username.value, credential, challenge, idNonce, keyNonce);
    }

    /** The `try` block of `register_verify` and what follows it. */
    method AcceptRegistration(user: UserRow, username: string, credential: Json, challenge: Json,
                              idNonce: Nonce, keyNonce: Nonce) returns (r: Response)
      requires Valid()
      modifies this, store
      ensures Valid()
      ensures Step(store.State(), session, r)
        == RegistrationAccepted(old(store.State()), old(session), env, user, username, credential, challenge, idNonce, keyNonce)
    {
      var expected := env.lib.base64urlToBytes(challenge);
      if expected.None? {
        return BadRequest(VERIFICATION_FAILED);
      }
      var verification := env.lib.verifyRegistration(credential, expected.value);
      if verification.None? {
        return BadRequest(VERIFICATION_FAILED);
      }
      var transports := TransportsOf(credential);
      if transports.None? {
        return ServerError;
      }
      var v := verification.value;
      SaveCredential(store, env.vault, user.id, v.credentialId, v.credentialPublicKey, v.signCount,
                     transports.value, v.deviceType, v.backedUp, idNonce, keyNonce);
      session := session[USER := JObj(map["username" := JStr(username)])];
      return Verified;
    }

    /** `login_options`. */
    method LoginOptions(body: Json, now: int, challenge: Bytes) returns (r: Response)
      requires Valid()
      modifies this
      ensures Valid()
      ensures Step(store.State(), session, r) == LoginOptionsStep(store.State(), old(session), env, body, now, challenge)
    {
      if !body.JObj? {
        return ServerError;
      }
      var username := UsernameOf(body.fields);
      if username.None? {
        return ServerError;
      }
      if username.value == [] {
        return BadRequest(INVALID_REQUEST);
      }
      var user := GetUser(store.State(), username.value);
      if user.None? {
        return BadRequest(INVALID_REQUEST);
      }
      var creds := ListUserCredentials(store.State(), user.value.id);
      if creds == [] {
        return BadRequest(INVALID_REQUEST);
      }
      assert LoginOptionsStep(store.State(), session, env, body, now, challenge)
        == AuthenticationIssued(store.State(), session, env, username.value, creds, now, challenge);
      r := IssueAuthentication(username.value, creds, now, challenge);
    }

    /** The end of `login_options`: the allow list, then the challenge and
        the username into the session. */
    method IssueAuthentication(username: string, creds: seq<CredentialRow>, now: int, challenge: Bytes) returns (r: Response)
      requires Valid()
      modifies this
      ensures Valid()
      ensures Step(store.State(), session, r) == AuthenticationIssued(store.State(), old(session), env, username, creds, now, challenge)
    {
      var allow := DecryptCredentialIds(env.vault, creds);
      if allow.None? {
        return ServerError;
      }
      session := session[AUTH_CHALLENGE := JStr(B64urlEncode(challenge))];
      session := session[AUTH_ISSUED_AT := JNum(now)];
      session := session[AUTH_USERNAME := JStr(username)];
      return AuthenticationOptions(challenge, allow.value);
    }

    /** `login_verify`. */
    method LoginVerify(body: Json, now: int) returns (r: Response)
      requires Valid()
      modifies this, store
      ensures Valid()
      ensures Step(store.State(), session, r) == LoginVerifyStep(old(store.State()), old(session), env, body, now)
    {
      if !body.JObj? {
        return ServerError;
      }
      var credential := Get(body.fields, "credential");
      if !Truthy(credential) {
        return BadRequest(INVALID_REQUEST);
      }
      var challenge := Pop(AUTH_CHALLENGE);
      var issuedAt := Pop(AUTH_ISSUED_AT);
      if !ChallengeFresh(challenge, issuedAt, now) {
        return BadRequest(LOGIN_EXPIRED);
      }
      assert LoginVerifyStep(old(store.State()), old(session), env, body, now)
        == LoginAccepted(store.State(), session, env, credential, challenge);
      r := AcceptLogin(credential, challenge);
    }

    /** `login_verify` after the challenge is accepted: the lookup, the
        `try` block and the update. */
    method AcceptLogin(credential: Json, challenge: Json) returns (r: Response)
      requires Valid()
      modifies this, store
      ensures Valid()
      ensures Step(store.State(), session, r) == LoginAccepted(old(store.State()), old(session), env, credential, challenge)
    {
      var idValue := CredentialIdOf(credential);
      if idValue.None? {
        return BadRequest(VERIFICATION_FAILED);
      }
      var credentialId := env.lib.base64urlToBytes(idValue.value);
      if credentialId.None? {
        return BadRequest(VERIFICATION_FAILED);
      }
      var credHash := env.vault.sha256(credentialId.value);
      var row := FindCredentialByHash(store.State(), credHash);
      if row.None? {
        return BadRequest(VERIFICATION_FAILED);
      }
      var publicKey := DecryptPublicKey(env.vault, row.value);
      if publicKey.None? {
        return ServerError;
      }
      var expected := env.lib.base64urlToBytes(challenge);
      if expected.None? {
        return BadRequest(VERIFICATION_FAILED);
      }
      var verification := env.lib.verifyAuthentication(credential, expected.value, publicKey.value, row.value.signCount);
      if verification.None? {
        return BadRequest(VERIFICATION_FAILED);
      }
      var v := verification.value;
      UpdateSignCount(store, credHash, v.newSignCount, v.deviceType, v.backedUp);
      var username := if AUTH_USERNAME in session then session[AUTH_USERNAME] else JStr("unknown");
      session := session[USER := JObj(map["username" := username])];
      return Verified;
    }
  }
}
