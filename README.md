# Passkey relying party: ceremony state, credential vault, store and client codec

This project models, in Dafny, the core of a small WebAuthn (passkey)
relying party and proves what that core promises. The system is made of
four parts.

- **Ceremony handlers** (`webauthn_routes.py`, module `Routes`).
  - The class `Routes.RelyingParty` holds the caller's session, the credential store and the injected services.
  - The two start endpoints (`register_options`, `login_options`) write a base64url challenge and the time it was issued into the session.
  - The two finish endpoints (`register_verify`, `login_verify`) pop both keys before any cryptographic check. They reject a challenge older than `CHALLENGE_TTL_SECONDS` (120).
  - Every failure folds into a fixed message: "invalid request", "registration expired (start over)", "login expired (start over)" or "webauthn verification failed".
  - On success the store is written and `session["user"]` is set.
  - Each handler is a method proved equal to a step function (`RegisterOptionsStep`, `RegisterVerifyStep`, `LoginOptionsStep`, `LoginVerifyStep`) of the old store and session. The properties of the endpoints are lemmas about those functions.
- **Credential vault** (`crypto_store.py`, module `CryptoStore`).
  - The associated data is the UTF-8 of `RP_ID|user_id`. A blob is a 12-octet nonce followed by the AES-GCM ciphertext.
  - `save_credential` hashes the id, encrypts the id and the public key under the owner's associated data, and upserts. `update_sign_count` forwards to the store.
  - AES-GCM and SHA-256 are functions held in a `Vault` record. What the code relies on (opening what was sealed, binding to the associated data, no hash collisions) is stated as hypotheses in `requires` clauses.
- **Persistence** (`db.py`, module `Db`).
  - The class `Db.Store` holds the `users` and `credentials` tables as sequences in rowid order, plus the two AUTOINCREMENT counters.
  - Its invariant is the schema: unique usernames, unique credential-id hashes, and ids increasing along the tables.
  - Its methods are get-or-create, INSERT OR REPLACE and UPDATE, each proved equal to a function of the old tables. Queries are functions of the tables.
- **Browser helpers** (`static/webauthn.js`, module `WebAuthnClient`).
  - `bufferToBase64url` and `base64urlToBuffer` keep their loops, which build the binary string and fill the `Uint8Array`.
  - `btoa`/`atob` follow section 4 of RFC 4648 and the forgiving-base64 decode of the HTML standard (module `Base64`). The URL-safe alphabet follows section 5 of RFC 4648.
  - `preformatCreateOptions` and `preformatGetOptions` are methods of a class holding the options object they overwrite in place. `serializeAttestation` and `serializeAssertion` are functions.

The support modules are:
- `Wrappers` and `Octets` in `prelude.dfy`: `Option`, `Result`, octets;
- `Text`: Python's `str.strip()`, decimal text of a number, UTF-8;
- `Json`: the JSON values of request bodies and the session, with Python truthiness.

The code departs in four places from a design in which every finish consumes its challenge and no answer reveals whether a user exists. The model follows the code:
- The finish endpoints do not consume the challenge unconditionally. `login_verify` rejects a body without `credential`, and `register_verify` rejects a blank username, a missing `credential` or an unknown username, before popping anything (webauthn_routes.py:76-83, 153-158). So single use is proved only once those guards pass.
- `login_options` answers an unknown user, or a user without credentials, with a 400 "invalid request" and performs no decoy work. `constant_work_padding` is defined but never called.
- At registration finish, an unknown username gives "invalid request", not the generic verification failure.
- Two server errors come after the pop: an exception from `decrypt_public_key` in `login_verify` (webauthn_routes.py:174), and `credential.get("response", {}).get("transports")` in `register_verify` failing on a credential that is not an object or whose `response` is not an object (webauthn_routes.py:103, `TransportsOf`). Both are answered outside the session middleware (main.py:11-16), so the client's cookie keeps the challenge the handler popped. Single use holds in the client's cookie for every other answer (`ClientSession`, `LoginChallengeSpentForClient`, `RegisterChallengeSpentForClient`).

## Model

| member | source | states |
|---|---|---|
| Text.StripCharacterised | webauthn_routes.py:38 | `str.strip()` is empty exactly when every character is whitespace; otherwise it is the slice of the input between the leading and trailing whitespace, and it begins and ends with non-whitespace |
| Text.StripTrimmed | webauthn_routes.py:38 | a string with no whitespace at either end is its own `str.strip()` |
| Text.ParseDecimalOfDecimal | crypto_store.py:15 | the decimal text of a user id reads back as that id |
| Text.DecimalInjective | crypto_store.py:15 | distinct user ids have distinct decimal texts |
| Text.Utf8Append | crypto_store.py:15 | UTF-8 of a concatenation is the concatenation of the encodings |
| Text.Utf8OfAscii | crypto_store.py:15 | UTF-8 of ASCII text is one octet per character, equal to its code |
| Text.Utf8AsciiInjective | crypto_store.py:15 | ASCII texts with equal UTF-8 encodings are equal |
| Base64.PadCount | static/webauthn.js:22 | the `=` count `(4 - len % 4) % 4` is at most 3, makes the length a multiple of 4, and is 0 when it already is one |
| Base64.UnpaddedShape | static/webauthn.js:16-17 | the unpadded encoding of n octets has `(4n+2)/3` characters, never 1 more than a multiple of 4, and the padding `PadCount` restores is exactly the `=` count of the padded form |
| Base64.EncodeLength | static/webauthn.js:16 | `btoa` output has a length that is a multiple of 4 |
| Base64.GroupRoundTrip | static/webauthn.js:16-23 | one group of 1 to 3 octets, written as 2 to 4 characters, decodes to the same octets |
| Base64.DecodeUnpadded | static/webauthn.js:16-23 | decoding the groups of the unpadded encoding gives back every octet |
| Base64.RemoveNoWhitespace | static/webauthn.js:23 | `atob`'s whitespace removal leaves alphabet-only text unchanged |
| Base64.ReplaceAbsent | static/webauthn.js:21 | replacing a character that does not occur changes nothing |
| Base64.StripAppended | static/webauthn.js:17 | `replace(/=+$/g, '')` removes exactly the appended `=` run from text not ending in `=` |
| Base64.UrlEncodeIsUrlChars | static/webauthn.js:17 | mapping `+`/`/` to `-`/`_` and stripping `=` from the padded form gives the URL-safe characters of the groups |
| Base64.UrlEncodeAlphabet | static/webauthn.js:17 | base64url output uses only the URL-safe alphabet and contains no `+`, `/` or `=` |
| Base64.UrlEncodeLength | static/webauthn.js:17 | base64url output has `(4n+2)/3` characters for n octets |
| Base64.UrlCharsBack | static/webauthn.js:21 | mapping `-` to `+` and `_` to `/` restores the standard-alphabet groups |
| Base64.DecodePadded | static/webauthn.js:22-23 | `atob` on unpadded groups completed with `PadCount` `=` succeeds and decodes the groups |
| Base64.TrimRestoredPadding | static/webauthn.js:22-23 | the padding `atob` trims is exactly the padding that was appended |
| Base64.EncodeRoundTrip | static/webauthn.js:16-23 | the forgiving-base64 decode of the padded standard encoding of any octets gives those octets back |
| Base64.UrlRoundTrip | static/webauthn.js:12-27 | decoding the base64url text of any octets gives those octets back |
| CryptoStore.AadInjective | crypto_store.py:14-15 | distinct user ids give distinct associated data |
| CryptoStore.DecryptEncrypted | crypto_store.py:17-38 | a blob is the 12-octet nonce followed by the ciphertext, and decrypting it under the same associated data gives the plaintext |
| CryptoStore.DecryptOtherAadFails | crypto_store.py:34-38 | a blob decrypted under any other associated data fails |
| CryptoStore.OtherOwnerCannotDecrypt | crypto_store.py:40-46 | blobs sealed for one owner fail to decrypt through a row naming another owner, since the helpers take the associated data from the row's own `user_id` |
| CryptoStore.SavedCredentialReadsBack | crypto_store.py:48-71 | after saving, the row found by `sha256(id)` belongs to the owner, decrypts to the id and the public key, and holds the counter, the transports (or `[]` when falsy), the device type and `backed_up` as 0/1 |
| CryptoStore.SavedCredentialOnlyUnderItsId | crypto_store.py:57-71 | saving changes no lookup by another credential id's hash |
| CryptoStore.SaveCredential | crypto_store.py:48-71 | the store becomes the upsert of the hashed, sealed row, and stays well formed |
| CryptoStore.UpdateSignCount | crypto_store.py:73-84 | the store becomes exactly the UPDATE of the given hash with the given arguments |
| Db.Empty | db.py:10-45 | freshly created tables are empty and satisfy the schema |
| Db.FindUser | db.py:47-53 | the row found has the username; none is found only when no row has it |
| Db.GetUserUnique | db.py:47-53 | under the UNIQUE username constraint, the lookup returns the one row with that name |
| Db.CredentialsOf | db.py:80-86 | exactly the rows of that owner, with ids still increasing when the table's were |
| Db.FindCredential | db.py:88-94 | the row found has the hash; none is found only when no row has it |
| Db.FindCredentialUnique | db.py:88-94 | under the UNIQUE hash constraint, the lookup returns the one row with that hash |
| Db.GotOrCreatedEffect | db.py:64-78 | an existing user is returned unchanged and the tables stay as they were; otherwise exactly one row with the given handle is appended; the schema is kept |
| Db.GotOrCreatedIdempotent | db.py:64-78 | a second get-or-create of the same name, with any handle, changes nothing and returns the same row |
| Db.WithoutHash | db.py:108-126 | the REPLACE step removes exactly the rows with that hash |
| Db.WithoutHashOrdered | db.py:108-126 | removing rows keeps the ids increasing |
| Db.CredentialUpsertedWellFormed | db.py:96-128 | INSERT OR REPLACE keeps the schema, the hash staying unique |
| Db.CredentialUpsertedEffect | db.py:96-128 | the new row, with a fresh id, the new owner, blobs and counter and `backed_up` as 0/1, is the only one with its hash; every row with another hash stays, and users are untouched |
| Db.SignCountUpdatedWellFormed | db.py:130-147 | the UPDATE keeps the schema |
| Db.SignCountUpdatedEffect | db.py:130-147 | the UPDATE changes only `sign_count`, `device_type` and `backed_up` of the row with that hash; every other column and row stays, and a missing hash changes nothing |
| Db.Store.constructor | db.py:10-45 | a new store holds the empty tables |
| Db.Store.GetOrCreateUser | db.py:64-78 | tables and returned row are those of the get-or-create function, and the schema invariant holds |
| Db.Store.InsertOrReplaceCredential | db.py:96-128 | tables become the upsert of the row, and the schema invariant holds |
| Db.Store.UpdateCredentialSignCount | db.py:130-147 | tables become the UPDATE of the row, and the schema invariant holds |
| WebAuthnClient.BinaryString | static/webauthn.js:15 | the string built by `String.fromCharCode` has one code unit per octet and reads back to the octets |
| WebAuthnClient.BtoaAtobRoundTrip | static/webauthn.js:16-23 | `btoa` accepts every binary string, and `atob` of its result is that string again |
| WebAuthnClient.Atob | static/webauthn.js:23 | what `atob` returns is a binary string |
| WebAuthnClient.ToArrayBuffer | static/webauthn.js:6-10 | a buffer or view is accepted and a view gives its underlying buffer; anything else throws "Expected ArrayBuffer or view" |
| WebAuthnClient.BufferToBase64url | static/webauthn.js:12-18 | the loop-built binary string, encoded, is the base64url of the buffer's octets, or the error `toArrayBuffer` throws |
| WebAuthnClient.CopyCodeUnits | static/webauthn.js:24-25 | the filled array holds each code unit of the binary string |
| WebAuthnClient.Base64urlToBuffer | static/webauthn.js:20-27 | the buffer is the `atob` decode of the text with the alphabet mapped back and padding restored, or the error |
| WebAuthnClient.ClientRoundTrip | static/webauthn.js:12-27 | for every buffer or view, the encoding succeeds, uses only the URL-safe alphabet without `+`, `/` or `=`, and decodes back to the octets |
| WebAuthnClient.FieldRoundTrip | static/webauthn.js:12-27 | whatever encodes decodes back to its buffer |
| WebAuthnClient.DecodesServerEncoding | static/webauthn.js:20-27 | text the server's `b64url_encode` made decodes to the original octets |
| WebAuthnClient.DecodeEach | static/webauthn.js:35-38 | the map succeeds exactly when every descriptor decodes, keeps the count and the order, and holds each decoded descriptor |
| WebAuthnClient.DecodeEncodedDescriptors | static/webauthn.js:35-38 | descriptors whose ids the server encoded decode one for one to the same descriptors with the ids as buffers |
| WebAuthnClient.CreatePreformatted | static/webauthn.js:29-41 | only `challenge`, `user` and `excludeCredentials` are written; every other property stays |
| WebAuthnClient.GetPreformatted | static/webauthn.js:43-52 | only `challenge` and `allowCredentials` are written; every other property stays |
| WebAuthnClient.Options.PreformatCreateOptions | static/webauthn.js:29-41 | the options object and the exception are those of the preformat function on the old properties |
| WebAuthnClient.Options.PreformatGetOptions | static/webauthn.js:43-52 | the options object and the exception are those of the preformat function on the old properties |
| WebAuthnClient.CreatePreformattedAllDecode | static/webauthn.js:29-41 | when the challenge, the user id and a truthy exclude list decode, each is replaced by its decoding and nothing is thrown |
| WebAuthnClient.PreformatCreateOfServerOptions | static/webauthn.js:29-41 | for options the server built, the challenge, `user.id` and each excluded id become exactly the server's octets, every other property of the options, the user and each descriptor stays, and the list keeps its length and order |
| WebAuthnClient.GetPreformattedAllDecode | static/webauthn.js:43-52 | when the challenge and a truthy allow list decode, each is replaced by its decoding and nothing is thrown |
| WebAuthnClient.PreformatGetOfServerOptions | static/webauthn.js:43-52 | for options the server built, the challenge and each allowed id become exactly the server's octets, keeping every other property and the list's length and order |
| WebAuthnClient.SerializedAttestationDecodes | static/webauthn.js:55-72 | serialisation succeeds exactly when the three binary fields are buffers; each encoded field decodes back, and the id, type and transports are copied |
| WebAuthnClient.SerializedAssertionDecodes | static/webauthn.js:75-92 | serialisation succeeds exactly when the binary fields are buffers; each encoded field decodes back; `userHandle` is `null` exactly when the authenticator's handle is falsy |
| Routes.B64urlEncodeUnpadded | webauthn_routes.py:31-33 | `b64url_encode` output has no `=`, uses the URL-safe alphabet, and decodes back to the octets |
| Routes.DecryptedIds | webauthn_routes.py:133-136 | the descriptor ids are all present exactly when every row decrypts, one per row in row order |
| Routes.DecryptCredentialIds | webauthn_routes.py:133-136 | the append loop yields the decrypted ids of the rows, or the failure |
| Routes.UsernameBlank | webauthn_routes.py:38 | `(body.get("username") or "").strip()` is empty exactly when the field is falsy or whitespace, and fails only for a truthy non-string |
| Routes.OptionsRejectBlankUsername | webauthn_routes.py:38-40 | both start endpoints answer a blank username with "invalid request" and change neither session nor store |
| Routes.RegisterOptionsUser | webauthn_routes.py:42-69 | the user is created only if absent, and an existing user's handle is reused; on success the options carry the challenge, the handle and the name, and the session holds the encoded challenge and `now`; a failed decryption leaves the session unchanged |
| Routes.LoginOptionsRejectsUnknownOrEmpty | webauthn_routes.py:125-131 | an unknown user and a user without credentials get the same "invalid request", with no challenge issued and nothing changed |
| Routes.LoginOptionsOutcomes | webauthn_routes.py:118-148 | `login_options` never writes the store; it answers with options, a server error or "invalid request", and only options change the session |
| Routes.LoginOptionsDecryptOutcome | webauthn_routes.py:133-136 | for a known user with stored credentials, options are answered exactly when every stored id decrypts; otherwise the answer is a server error with store and session unchanged |
| Routes.LoginOptionsIssuesChallenge | webauthn_routes.py:133-146 | on success the store is untouched, the session's challenge, issue time and username are overwritten, and the allow list has one decrypted id per stored credential of the user, in row order |
| Routes.StoredChallengeDecodes | webauthn_routes.py:144-179 | the challenge stored at login start decodes at login finish to the octets that were issued |
| Routes.ChallengeFreshIff | webauthn_routes.py:159-162 | a challenge is accepted exactly when it is present, its issue time is non-zero and its age is at most the TTL; an age equal to the TTL is accepted, and a missing issue time is not |
| Routes.LoginVerifyConsumesChallenge | webauthn_routes.py:153-158 | without `credential` nothing changes; with it, both challenge keys are gone from the session the handler leaves, whatever the outcome |
| Routes.LoginChallengeSpentForClient | webauthn_routes.py:153-187 | past the `credential` check, the client's cookie holds no challenge after any answer but a server error, and after a server error it is the cookie sent in |
| Routes.LoginVerifyStages | webauthn_routes.py:157-187 | past the `credential` check, a stale challenge gives "login expired" with only the pop done; a fresh one hands over to the acceptance stage, whose answer is success, a server error or "webauthn verification failed", and only success changes the store or the session |
| Routes.LoginAcceptedFrame | webauthn_routes.py:164-187 | an unknown credential gives "webauthn verification failed"; a server error happens exactly when the row is found and does not decrypt; with the row decrypted, failure is exactly a rejected assertion; only success changes anything |
| Routes.LoginWithRowFrame | webauthn_routes.py:174-187 | once the row is found, a server error happens exactly when its key does not decrypt, and "webauthn verification failed" exactly when the assertion is rejected; only success changes anything |
| Routes.AliceLoginStarted | webauthn_routes.py:118-148 | over two users who each own one credential, `login_options` for "alice" with any non-empty challenge answers with options, leaves the store alone and writes a session naming alice |
| Routes.MalloryAnswersForAlice | webauthn_routes.py:150-198 | from that session, `login_verify` with mallory's credential finds mallory's row, answers with success and signs in alice |
| Routes.LoginAsAnotherOwner | webauthn_routes.py:118-198 | as written: the session `login_options` leaves for alice, finished with a credential whose row belongs to mallory, is answered with success and signs in alice, over well-formed tables and for any non-empty challenge |
| Routes.LoginWithOwnedRow | webauthn_routes.py:169-197 | corrected acceptance: success only when the session's username names the user who owns the found row; that user is the one signed in, and every other answer leaves the store unchanged |
| Routes.OwnerCheckRejectsAnotherOwner | webauthn_routes.py:169-197 | the corrected acceptance answers the same input, the session `login_options` left for alice met with mallory's row, with "webauthn verification failed" and changes nothing |
| Routes.ReplayedLoginRejected | webauthn_routes.py:157-162 | a second login finish in the session left by the first is answered "login expired (start over)" and changes nothing |
| Routes.LoginExpiredIff | webauthn_routes.py:157-162 | "login expired" is answered exactly when a credential was sent and the stored challenge is missing or too old |
| Routes.LoginVerifyWritesOnlyOnSuccess | webauthn_routes.py:164-187 | every answer is one of the fixed ones, and nothing but success writes to the store |
| Routes.LoginVerifySuccess | webauthn_routes.py:150-198 | success means a fresh challenge, the store becomes the UPDATE of the row keyed by `sha256(id)`, and that row then holds exactly the verifier's new counter, device type and `backed_up`, its other columns unchanged; the session's user is the stored `auth_username` (or "unknown") and both challenge keys are gone |
| Routes.LoginWithRowSuccess | webauthn_routes.py:174-197 | a verified assertion updates exactly the found row's counter and metadata and sets the session's user |
| Routes.RegisterVerifyConsumesChallenge | webauthn_routes.py:76-86 | a blank username, a missing credential or an unknown user gets "invalid request" with nothing changed; otherwise both challenge keys are gone from the session the handler leaves |
| Routes.RegisterChallengeSpentForClient | webauthn_routes.py:76-116 | past the guards, the client's cookie holds no challenge after any answer but a server error, and after a server error it is the cookie sent in |
| Routes.RegisterVerifyStages | webauthn_routes.py:73-116 | past the guards, a missing or stale challenge gives "registration expired" with only the pop done; a fresh one hands over to verification, whose failure changes nothing further and whose success sets the session's user |
| Routes.RegistrationAcceptedFrame | webauthn_routes.py:92-116 | after verification starts, the answer is success, a server error or "webauthn verification failed", and only success changes the store or the session |
| Routes.RegisterVerifyOutcomes | webauthn_routes.py:85-101 | "registration expired" is answered exactly when the guards pass and the challenge is missing or stale, and nothing but success writes to the store |
| Routes.RegisterVerifySuccess | webauthn_routes.py:92-116 | success means a fresh challenge, and the saved row found by `sha256(id)` belongs to the user, decrypts to the verified id and public key, and holds the verified counter, device type and `backed_up`; the session's user is the username; the store is exactly the upsert of that sealed row, and the session only loses the two challenge keys and gains the user |
| Routes.RelyingParty.RegisterOptions | webauthn_routes.py:35-71 | the new store, session and answer are those of the registration-start step |
| Routes.RelyingParty.IssueRegistration | webauthn_routes.py:48-71 | the exclude loop, the options and the two session writes are those of the issuing stage |
| Routes.RelyingParty.Pop | webauthn_routes.py:85-86 | `session.pop(key, None)` returns the value or `None` and removes the key |
| Routes.RelyingParty.RegisterVerify | webauthn_routes.py:73-116 | the new store, session and answer are those of the registration-finish step |
| Routes.RelyingParty.AcceptRegistration | webauthn_routes.py:92-116 | verification, the save and the session write are those of the acceptance stage |
| Routes.RelyingParty.LoginOptions | webauthn_routes.py:118-148 | the session and answer are those of the login-start step, and the store is unchanged |
| Routes.RelyingParty.IssueAuthentication | webauthn_routes.py:133-148 | the allow loop and the three session writes are those of the issuing stage |
| Routes.RelyingParty.LoginVerify | webauthn_routes.py:150-198 | the new store, session and answer are those of the login-finish step |
| Routes.RelyingParty.AcceptLogin | webauthn_routes.py:164-198 | id decoding, lookup, decryption, verification, update and session write are those of the acceptance stage |

## Left out

- The `webauthn` library (`verify_registration_response`, `verify_authentication_response`, `base64url_to_bytes`) is a record of functions the relying party is given. Its checks, including the sign-counter comparison, are not modelled.
- `generate_registration_options`, `generate_authentication_options` and `options_to_json` are reduced to the fields the handlers feed them: the challenge, the user handle and name, and the credential ids. The fixed RP name, attestation and authenticator-selection settings are not part of the answer.
- `secrets.token_bytes` and `time.time()`: the challenge, the user handle, the AES-GCM nonces and the current time are method parameters.
- AES-GCM and SHA-256 are not implemented. Their properties are hypotheses (`OpensWhatItSeals`, `BindsAssociatedData`, `CollisionFree`) that a lemma requires where it needs them.
- CryptoStore.ConstantWorkPadding: models the single discarded decryption and carries no postcondition. Wall-clock time is outside the model, so no timing property is claimed.
- The session is a map held by the relying party. Starlette keeps it in a signed cookie on the client, which is rewritten only for answers that pass through the session middleware; `ClientSession` is the cookie the client holds: the session sent in after a server error, the handler's session otherwise. Replaying an older cookie than the latest is outside the model, as are signing and cookie expiry.
- `SessionWellTyped` assumes that only these handlers write the challenge and issue-time keys.
- FastAPI routing, HTTP status codes and exceptions are out. Errors are the `Response` constructors. Every uncaught exception is `ServerError`: a body that is not a JSON object (`body.get`), a truthy `username` that is not a string (`.strip()`), a stored credential id that does not decrypt in either options endpoint (webauthn_routes.py:50, 135), a public key that does not decrypt (webauthn_routes.py:174), and a registration credential whose `transports` cannot be read (webauthn_routes.py:103). Request bodies that are not JSON are out. `main.py` (`/api/me`, `/api/logout`, static files) is not part of this model.
- SQLite I/O, connections, commits and concurrent requests are out. The tables are sequences held in memory, and each operation is atomic.
- `db.get_username_by_user_id` is not called by the core, so it is not modelled.
- The `sign_count` column default of 0 is never used, because every insert gives a count. `transports` is kept as the JSON value that `json.dumps` would turn into text, so the text itself is not modelled.
- `init_db` is modelled as the empty tables with their constraints. `CREATE TABLE IF NOT EXISTS` on an existing database is not modelled.
- `config.py` environment reading: `RP_ID` ("localhost") and the TTL (120) are constants, and the key is a 32-octet value by its type.
- JavaScript strings are sequences of characters, one per UTF-16 code unit, restricted to what these helpers produce. Views are their underlying buffer, so aliasing between a view and other views of the same buffer is not modelled.
- Browser APIs (`navigator.credentials`, `fetch`/`postJSON`, `log`, the button handlers) are not part of this model. `getTransports` and `getClientExtensionResults` are given as optional values.

## Findings

| source | as written | input that shows it | evidently intended | confidence | as-written member | corrected member |
|---|---|---|---|---|---|---|
| webauthn_routes.py:169-197 | `login_verify` looks the credential up by `sha256(id)` alone and signs in the session's `auth_username`, without comparing that user's id with the row's `user_id` | alice and mallory each own one credential; mallory calls `login_options` for "alice", then answers the challenge with her own passkey; the row is hers, the assertion verifies, and the session's user becomes alice | only the owner of the asserting credential is signed in | not executed | Routes.LoginAsAnotherOwner | Routes.LoginWithOwnedRow |

The handler model (`LoginVerifyStep`, `RelyingParty.LoginVerify`) keeps the code as written, so that it can be compared with the source; `LoginWithOwnedRow` is the acceptance stage with the owner check added, and its contract states the intended property.
