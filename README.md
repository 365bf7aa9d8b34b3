# PersonalVault authentication and vault core, in Dafny

PersonalVault is a credential-vault web application with an Express/Mongoose backend. This project models the backend's security core and proves properties about it:

- **Authentication controller.** E-mail registration with a verification link, and password login. A correct password gives a short-lived *login attempt*. A TOTP code, after one-time enrolment, turns the attempt into a *session*. Sessions carry rotating refresh tokens with reuse detection. The controller also covers logout, session listing and revocation, password reset, and re-authentication.
- **Vault controller.** Named *divisions*, each holding site credentials whose passwords are stored encrypted.
- **Envelope cipher.** The `iv.tag.ciphertext` hex payload around AES-256-GCM, the master-key check, and the SHA-256 token digests.
- **E-mail shape validator** and the domain passed to the MX lookup.
- **The four Mongoose schemas** the controllers rely on.

How the model is built:

- The three authentication collections (users, sessions, revoked-token tombstones) are the fields of the class `AuthController.AuthStore`. Every request handler is a method on it, and each method states the complete new state and reply for every branch of the handler.
- The vaults are the map field of `DashboardController.VaultStore`. Its methods are specified by the functions `SaveToDivision`, `WithoutSite` and `WithoutDivision`, and those functions carry the properties the handlers promise.
- Multi-request properties are methods in `AuthScenarios` that chain handler calls. These cover:
  - the whole sign-up;
  - rotation, then reuse detection;
  - logout followed by a replay of the same token;
  - single-use links;
  - the behaviours listed under the code-versus-design table below.
- Document ids are natural numbers handed out in increasing order, so Mongo's natural order is ascending id and `findOne` is the first match (`Mongo.FindOne`).

Code from outside the repository is modelled as follows:

| Outside code | In the model |
|---|---|
| SHA-256 | a parameter `string -> Digest`, where a digest is 32 bytes |
| `bcrypt.compare` | a parameter |
| TOTP verification | a parameter |
| `jsonwebtoken` verification | a parameter returning the claims or nothing, passed per request |
| AES-256-GCM | a pair of seal/open functions, constrained where needed by the hypothesis `Crypto.Sound` (under a 32-byte key: round trip, 16-byte tags, empty ciphertext exactly for the empty plaintext). A key of any other length makes encryption and decryption fail, as node's cipher constructors throw. |
| raw tokens, the TOTP secret, the iv, bcrypt digests | method inputs |
| the clock | a method input `now`, in milliseconds |
| whether a mail was sent | the input `mailSent` |
| whether the domain has MX records | the input `hasMxRecords` |

Where a handler stores the digest of a fresh random token, the method requires that no stored record holds that digest yet. This stands for the randomness of the token and for the store's unique index on the digest.

Where the code and the written design disagree, the model follows the code:

| Topic | Design | Code, as modelled |
|---|---|---|
| Login attempts | Expire after five minutes. | The three attempt lookups never read `expiresAt` (`backend/src/controllers/authController.ts:381-385`, `447-451`, `701-705`). An attempt lasts until the TTL sweep removes it (`AuthStore.PurgeExpired`). `AuthScenarios.AttemptExpiresOnlyBySweep` shows the attempt still accepted after its five minutes. |
| Refresh | Rotates session tokens only. | The refresh lookup matches any record with the digest, login attempts included (`authController.ts:524`). So a login-attempt token is accepted as a refresh token and yields an access token without a second factor (`AuthScenarios.AttemptTokenRefreshes`). |
| Logout | — | Logout keeps the digest on the revoked session. Replaying the token is answered "Session revoked." rather than by reuse detection (`AuthScenarios.LogoutThenReplay`). |
| Second-factor gate | Gated by mandatory enrolment. | `login2FA` does not consult `require2FASetup`. `reauth` reads the code but never checks it. |
| Verification slot | — | Verification, password reset and re-authentication share one token slot. A password-reset link therefore also verifies the account at the verification endpoint and reopens 2FA enrolment (`AuthScenarios.ResetTokenVerifiesEmail`). |

## Model

| member | source | states |
|---|---|---|
| UserModel.NewUser | backend/src/models/userModel.ts:18-31 | A new user is unverified, must enrol 2FA, has an empty token slot and no secret, and has its required fields exactly when name, e-mail and password are non-empty |
| SessionModel.NewSession | backend/src/models/sessionModel.ts:16-25 | A new session is not revoked and holds the given owner, digest, times and optional ip, user agent and device |
| SessionModel.RevokeAllOf | backend/src/controllers/authController.ts:530 | Marks exactly the given user's sessions revoked and leaves every other session and every key as it was |
| SessionModel.RevokeAllKeepsHashesUnique | backend/src/models/sessionModel.ts:18 | Mass revocation keeps the unique index on refresh-token digests |
| SessionModel.IsLoginAttempt | backend/src/controllers/authController.ts:381-385 | The attempt lookups' filter: the digest matches, the device is "login-attempt", and the session is not revoked; the expiry is not part of it |
| SessionModel.View | backend/src/controllers/authController.ts:637-638 | The listed session carries every field of the stored one except the refresh-token digest |
| SessionModel.ViewHidesDigest | backend/src/controllers/authController.ts:637-638 | Sessions that differ only in their digest are listed identically |
| SessionModel.SweepSessions | backend/src/models/sessionModel.ts:20 | The TTL index keeps exactly the sessions whose expiry is not before now, unchanged |
| RevokedTokenModel.NewRevokedToken | backend/src/models/revokedTokenModel.ts:11-16 | A tombstone's creation time defaults to now; it holds the given digest, owner and expiry |
| RevokedTokenModel.FindByHash | backend/src/models/revokedTokenModel.ts:12 | Finds the oldest tombstone with the digest (none before it has it), or reports that none has it; several tombstones may share a digest |
| RevokedTokenModel.SweepTombstones | backend/src/models/revokedTokenModel.ts:15 | Keeps every tombstone whose expiry is not before now and only such tombstones |
| UserModel.TokenUsable | backend/src/controllers/authController.ts:152-155 | The controllers' expiry test: the slot has an expiry and it is not before now |
| UserVaultModel.NewDivision | backend/src/models/userVaultModel.ts:29-32 | A new division has the given name and no credentials |
| Mongo.FindOne | backend/src/controllers/authController.ts:53 | `findOne` returns the first matching document in natural order, or nothing when none matches |
| Mongo.SweepExpired | backend/src/models/sessionModel.ts:20 | A TTL index with `expires: 0` keeps exactly the documents not yet past their date |
| JsString.Split | backend/src/utils/crypto.ts:21 | `split` yields at least one part, no part contains the separator, and joining the parts gives the input back |
| JsString.SplitThree | backend/src/utils/crypto.ts:17-21 | Three separator-free segments joined by the separator split back into exactly those three |
| JsString.SplitAtFirst | backend/src/utils/crypto.ts:21 | Splitting at the first separator gives the text before it followed by the split of the rest |
| JsString.Trim | backend/src/controllers/authController.ts:460 | `trim` returns a slice of the input with nothing but whitespace before and after it, and with no whitespace at either of its own ends; it is the identity on trimmed text |
| JsString.TrimWithin | backend/src/controllers/authController.ts:460 | Trimming keeps a slice of the input with only whitespace before and after it |
| JsString.SplitFirstPart | backend/src/utils/emailValidator.ts:9 | The first part of a split is the text up to the first separator, or the whole text when there is none |
| JsArray.FindIndex | backend/src/controllers/dashboardController.ts:55 | `find` gives the first element satisfying the predicate, or reports that none does |
| JsArray.Filter | backend/src/controllers/dashboardController.ts:122 | `filter` keeps exactly the elements satisfying the predicate and is never longer |
| JsArray.FilterRemovesOne | backend/src/controllers/dashboardController.ts:122 | A filter that rejects only one element returns the input with that element cut out, the rest in order |
| JsArray.FilterAppend | backend/src/controllers/dashboardController.ts:144 | Filtering a concatenation is the concatenation of the filtered parts, so order is preserved |
| JsArray.FilterKeepsKeysDistinct | backend/src/controllers/dashboardController.ts:144 | Filtering a sequence with distinct keys leaves the keys distinct |
| Crypto.HexEncode | backend/src/utils/crypto.ts:17 | Hex output is lower case and twice as long as the bytes |
| Crypto.HexDecode | backend/src/utils/crypto.ts:23-25 | Lenient hex decoding yields at most half as many bytes as characters |
| Crypto.HexRoundTrip | backend/src/utils/crypto.ts:17-25 | Decoding the hex encoding of bytes gives the bytes back |
| Crypto.HexDecodeComplete | backend/src/utils/crypto.ts:10 | Well-formed hex of even length decodes to exactly half its length |
| Crypto.LoadMasterKey | backend/src/utils/crypto.ts:5-10 | The key loads exactly when `MASTER_KEY` has 64 characters; otherwise it fails with the module's message; the loaded key is 32 bytes exactly when all 64 characters are hex digits |
| Crypto.Sha256Hex | backend/src/utils/crypto.ts:33-35 | The token digest is 64 lower-case hex characters that decode to the SHA-256 of the input |
| Crypto.EncryptText | backend/src/utils/crypto.ts:12-18 | Fails with "Invalid key length" exactly when the key is not 32 bytes; otherwise the payload splits into exactly the hex iv, hex tag and hex ciphertext, and its first segment is 24 characters |
| Crypto.DecryptText | backend/src/utils/crypto.ts:20-30 | Rejects with "Invalid payload" exactly when one of the first three segments is missing or empty; a well-formed payload under a key that is not 32 bytes fails with "Invalid key length"; any plaintext it returns is what AES-GCM authenticated under a 32-byte key |
| Crypto.EncryptDecryptRoundTrip | backend/src/utils/crypto.ts:12-30 | Under a 32-byte key, encryption succeeds and decrypting it gives the plaintext back, for every non-empty plaintext |
| Crypto.HexDecodeIncomplete | backend/src/utils/crypto.ts:10 | A string of even length with a character that is not a hex digit decodes to fewer than half its length |
| Crypto.NonHexKeyLoadsButFails | backend/src/utils/crypto.ts:7-14 | A 64-character `MASTER_KEY` that is not all hex passes the load check, but every encryption, and every decryption of a well-formed payload, then fails with "Invalid key length" |
| Crypto.EmptyPlaintextRejected | backend/src/utils/crypto.ts:22 | The encryption of the empty string is rejected by decryption as an invalid payload |
| Crypto.ExtraSegmentsIgnored | backend/src/utils/crypto.ts:21 | Segments after the third do not change the result of decryption |
| EmailValidator.IndexOf | backend/src/utils/emailValidator.ts:9 | Finds the first occurrence of a character, or reports that there is none |
| EmailValidator.ValidateEmail | backend/src/utils/emailValidator.ts:3-6 | An accepted address contains '@' and has at least five characters; its full meaning is stated by `ValidateEmailMatchesPattern` |
| EmailValidator.ValidateEmailMatchesPattern | backend/src/utils/emailValidator.ts:3-6 | The recogniser accepts exactly the strings matching `^[^\s@]+@[^\s@]+\.[^\s@]+$` |
| EmailValidator.AcceptedMatchesPattern | backend/src/utils/emailValidator.ts:3-6 | Every accepted address matches the pattern |
| EmailValidator.PatternAccepted | backend/src/utils/emailValidator.ts:3-6 | Every address matching the pattern is accepted |
| EmailValidator.IndexAfterPlainRun | backend/src/utils/emailValidator.ts:4 | The first '@' after an '@'-free, whitespace-free local part is right after it |
| EmailValidator.AcceptedShape | backend/src/utils/emailValidator.ts:4-5 | An accepted address has exactly one '@', no whitespace, a non-empty local part, and a '.' in the domain that is neither its first nor its last character |
| EmailValidator.DomainOfAccepted | backend/src/utils/emailValidator.ts:4-9 | For an accepted address, `split("@")[1]` is exactly the text after the '@' |
| EmailValidator.EmailDomain | backend/src/utils/emailValidator.ts:9 | `split("@")[1]` exists exactly when the address has an '@', and is the '@'-free text from just after the first '@' up to the next '@' or the end |
| EmailValidator.CheckEmailDomain | backend/src/utils/emailValidator.ts:8-16 | For an accepted address the answer is the MX lookup of exactly the text after the '@' |
| Jwt.BearerToken | backend/src/controllers/authController.ts:630 | The bearer token, when present, is non-empty and contains no space |
| Jwt.BearerTokenOfHeader | backend/src/controllers/dashboardController.ts:9 | The token of a header "scheme token" is the second word |
| Jwt.UserIdFromToken | backend/src/controllers/dashboardController.ts:8-14 | No user without a token or with a token that does not verify; otherwise the subject of the verified claims |
| AuthController.AuthStore.constructor | backend/src/utils/crypto.ts:7-9 | The store starts empty; it exists only when the master key has 64 characters; refresh lifetime is the configured number of days |
| AuthController.DeviceLabel | backend/src/controllers/authController.ts:485 | The device label is never empty: the given name, or "Unknown" when it is missing or empty |
| AuthController.AuthStore.Hash | backend/src/utils/crypto.ts:33-35 | The stored digest of a token is 64 hex characters decoding to the token's SHA-256 |
| AuthController.AuthStore.UserByEmail | backend/src/controllers/authController.ts:53 | The user holding the e-mail, or none among the stored users |
| AuthController.AuthStore.UserByTokenHash | backend/src/controllers/authController.ts:142 | The user whose token slot holds the digest, or none among the stored users |
| AuthController.AuthStore.SessionByHash | backend/src/controllers/authController.ts:524 | The first session in natural order with the refresh-token digest, or none |
| AuthController.AuthStore.AttemptByHash | backend/src/controllers/authController.ts:381-385 | The first unrevoked "login-attempt" session with the digest, or none; expiry is not consulted |
| AuthController.AuthStore.RegisterUser | backend/src/controllers/authController.ts:46-107 | Refuses missing fields, a bad format, a domain without MX, and an e-mail held by a verified user. Removes a stale unverified account before the password-length check. Otherwise stores one unverified user with the token digest and a 15-minute expiry, and keeps it when the mail fails (500). The store invariant is kept |
| AuthController.AuthStore.VerifyEmail | backend/src/controllers/authController.ts:135-165 | Only the holder of an unexpired token is verified, with the slot cleared and enrolment reopened; afterwards no user holds the token's digest, so it works once |
| AuthController.AuthStore.ResendVerification | backend/src/controllers/authController.ts:189-219 | Only an existing unverified account gets a new token, which overwrites the slot with a 15-minute expiry |
| AuthController.AuthStore.LoginUser | backend/src/controllers/authController.ts:233-279 | Unknown e-mail and wrong password both get 400 "Invalid credentials."; unverified gets 403 before the password check; success adds exactly one unrevoked five-minute login attempt and issues no access token |
| AuthController.AuthStore.RequestPasswordChange | backend/src/controllers/authController.ts:292-321 | An existing account's slot is overwritten with the reset token and a 15-minute expiry |
| AuthController.AuthStore.ConfirmPasswordChange | backend/src/controllers/authController.ts:336-361 | Only the holder of an unexpired token gets the new password digest, with the slot cleared; afterwards no user holds the token's digest |
| AuthController.AuthStore.Generate2FAQr | backend/src/controllers/authController.ts:375-419 | Needs an unrevoked login attempt for the cookie; refuses with no change once enrolled; a master key that is not 32 bytes gives 500 with no change; otherwise stores the encrypted secret and closes enrolment, leaving the attempt in place |
| AuthController.AuthStore.Login2FA | backend/src/controllers/authController.ts:437-504 | Changes nothing without a cookie, without a matching attempt, or with a wrong code. Otherwise deletes the attempt and adds exactly one session expiring after the refresh lifetime, and the access token names that user and that session |
| AuthController.AuthStore.RefreshToken | backend/src/controllers/authController.ts:518-578 | No cookie gives 200 and no change; a revoked or expired session gives 401 and no change. Rotation tombstones the old digest until the old expiry and installs the new digest and expiry, after which no session holds the old digest. An unknown digest with a tombstone revokes every session of its owner; with neither, "Invalid session." |
| AuthController.AuthStore.LogoutUser | backend/src/controllers/authController.ts:592-616 | Always clears the cookie and succeeds; a matching session is marked revoked, keeps its digest, and the digest is tombstoned |
| AuthController.AuthStore.GetSessions | backend/src/controllers/authController.ts:630-640 | Lists exactly the caller's unrevoked sessions, without digests; 401 without a token or with an invalid one |
| AuthController.AuthStore.RevokeSession | backend/src/controllers/authController.ts:652-675 | Revokes and tombstones only a session owned by the token's subject; any other id is "Session not found." with no change |
| AuthController.AuthStore.Reauth | backend/src/controllers/authController.ts:688-737 | For the attempt's user, overwrites the token slot with a 15-minute expiry whatever the code |
| AuthController.AuthStore.PurgeExpired | backend/src/models/sessionModel.ts:20 | The TTL sweep removes exactly the expired sessions, attempts included, and the expired tombstones, and nothing else |
| AuthController.InsertUserValid | backend/src/models/userModel.ts:21 | Saving a user whose e-mail and token digest are free keeps the unique e-mail index and one holder per digest |
| AuthController.RemoveUserValid | backend/src/controllers/authController.ts:63 | Deleting a user keeps the users table valid |
| AuthScenarios.RegisterVerifyLogin | backend/src/controllers/authController.ts:35-279 | For a new e-mail, register, verify and password login all succeed, and the login asks for enrolment and leaves one attempt |
| AuthScenarios.EnrolThenLogin2FA | backend/src/controllers/authController.ts:369-509 | From a live attempt, enrolment then a valid code yields an access token for the attempt's user and the new session |
| AuthScenarios.SignUpFromEmptyStore | backend/src/controllers/authController.ts:35-509 | From an empty store the whole sign-up succeeds and the first access token names user 0 and session 1 |
| AuthScenarios.RotationThenReuse | backend/src/controllers/authController.ts:524-561 | A refresh rotates once; replaying the old token revokes every session of that user, the rotated one included |
| AuthScenarios.LogoutThenReplay | backend/src/controllers/authController.ts:593-616 | A logged-out token replayed at refresh is "Session revoked.", not reuse detection |
| AuthScenarios.AttemptTokenRefreshes | backend/src/controllers/authController.ts:524 | The login-attempt token is accepted by refresh and yields an access token for the user without a second factor |
| AuthScenarios.AttemptExpiresOnlyBySweep | backend/src/controllers/authController.ts:701-705 | An attempt past its five minutes still admits re-authentication with any code; only the TTL sweep makes it unknown |
| AuthScenarios.VerificationTokenSingleUse | backend/src/controllers/authController.ts:142-163 | After a successful verification the same token finds no holder |
| AuthScenarios.ResetTokenSingleUse | backend/src/controllers/authController.ts:339-358 | After a successful reset the same link is "Invalid or expired token." |
| AuthScenarios.ResetTokenVerifiesEmail | backend/src/controllers/authController.ts:301-302 | A password-reset token accepted at the verification endpoint verifies the account and reopens enrolment |
| DashboardController.FindDivision | backend/src/controllers/dashboardController.ts:55 | The first division with the name, or none has it |
| DashboardController.FindCredential | backend/src/controllers/dashboardController.ts:90 | The first credential for the site, or none has it |
| DashboardController.SaveCredential | backend/src/controllers/dashboardController.ts:90-96 | The first credential for the site is replaced in place when present, and a new one is appended otherwise; every other credential is kept at its position; the saved credential is found again by site; unique sites stay unique |
| DashboardController.SaveToDivision | backend/src/controllers/dashboardController.ts:84-96 | An existing division keeps its position and gets exactly `SaveCredential` of its credentials, so its other credentials are kept; a missing one is appended holding only the new credential; other divisions keep position and contents; names and sites stay unique |
| DashboardController.SaveToDivisionAsWritten | backend/src/controllers/dashboardController.ts:84-96 | As written: an existing division is updated as intended, but a missing one is appended empty |
| DashboardController.AsWrittenLosesFirstCredential | backend/src/controllers/dashboardController.ts:86-95 | Saving into a division that does not exist yet leaves the new division empty as written, which differs from the intended update |
| DashboardController.SaveKeepsComplete | backend/src/models/userVaultModel.ts:23-31 | Saving a non-empty name, site, username and payload keeps every division named and every credential with its three required fields |
| DashboardController.SaveKeepsReadable | backend/src/controllers/dashboardController.ts:79-95 | Saving a decryptable payload keeps every stored password decryptable |
| DashboardController.WithoutSite | backend/src/controllers/dashboardController.ts:122 | Removes exactly the credentials for the site and keeps every other; an absent site leaves the list unchanged; with unique sites, exactly the one credential is cut out and the rest keep their order; unique sites stay unique |
| DashboardController.WithoutDivision | backend/src/controllers/dashboardController.ts:144 | Removes exactly the divisions with the name and keeps every other; an absent name leaves the vault unchanged; with unique names, exactly the one division is cut out and the rest keep their order; unique names stay unique |
| DashboardController.DecryptCredentials | backend/src/controllers/dashboardController.ts:31-36 | Succeeds exactly when every password decrypts, giving each credential with its plaintext, in order |
| DashboardController.DecryptDivisions | backend/src/controllers/dashboardController.ts:28-37 | Succeeds exactly when every stored password decrypts, giving each division's name and decrypted credentials, in order |
| DashboardController.SavedPasswordReadsBack | backend/src/controllers/dashboardController.ts:28-37 | A password saved by `updateVault` reads back unchanged at its division's and site's position |
| DashboardController.VaultStore.constructor | backend/src/utils/crypto.ts:7-10 | The vault store starts empty under the key the cipher module loads, and exists only when `MASTER_KEY` has 64 characters |
| DashboardController.VaultStore.VaultOf | backend/src/controllers/dashboardController.ts:82 | A user without a vault has no divisions |
| DashboardController.VaultStore.GetVault | backend/src/controllers/dashboardController.ts:17-44 | 401 without a user id, 400 for an unknown user, the name and no divisions without a vault, the decrypted divisions otherwise, and 500 if a password does not decrypt |
| DashboardController.VaultStore.GetVaultSucceeds | backend/src/controllers/dashboardController.ts:26-39 | For a valid store and an existing user, reading the vault succeeds with the owner's name and every division |
| DashboardController.VaultStore.CreateDivision | backend/src/controllers/dashboardController.ts:49-61 | 401 before the vault is read; 400 for an empty or existing name with no change; otherwise appends one empty division, creating the vault; the invariant is kept |
| DashboardController.VaultStore.UpdateVault | backend/src/controllers/dashboardController.ts:72-102 | 401 before the vault is read; 400 unless all four fields are given; 500 with no change when the master key is not 32 bytes; otherwise the vault becomes `SaveToDivision` of the encrypted password; unique names and sites, the schema's required fields and readability are kept |
| DashboardController.VaultStore.DeleteCredential | backend/src/controllers/dashboardController.ts:109-125 | 404 without a vault or division; otherwise only the named division loses its credentials for the site |
| DashboardController.VaultStore.DeleteDivision | backend/src/controllers/dashboardController.ts:135-147 | 404 without a vault; otherwise every division with the name is removed and the rest kept in order, and an absent name still succeeds |

## Left out

- Crypto.EncryptDecryptRoundTrip: holds only for non-empty plaintexts under a 32-byte key. Other key lengths fail to encrypt (`Crypto.NonHexKeyLoadsButFails`). The code cannot decrypt the encryption of the empty string, because its ciphertext segment is empty (`Crypto.EmptyPlaintextRejected`). Every caller in the core encrypts a non-empty value: a TOTP secret, or a vault password checked to be non-empty.
- Cryptographic internals are not modelled: SHA-256, bcrypt hashing and compare, speakeasy TOTP generation and verification, AES-256-GCM, and JWT signing and verification. They are parameters, as listed above, and the QR-code rendering is dropped.
- Randomness is not modelled: `crypto.randomBytes`, `uuid` and bcrypt's salt. Fresh values are inputs whose digests are required to be unused.
- Sending mail and the DNS MX lookup are network I/O; their outcomes are inputs.
- The HTML pages of `verifyEmail` and of the reset mail are reduced to their messages.
- Each handler is one atomic step. The model leaves out:
  - concurrent requests;
  - that `registerUser` does not await its `deleteOne` (`authController.ts:63`), whose completion is modelled as immediate;
  - the store's catch-all 500 answers for database failures.
- The TTL sweep is an explicit step (`PurgeExpired`), not a background timer.
- Ids are natural numbers. Malformed ObjectIds in a request, which make Mongoose throw, are not modelled.
- Timestamps (`createdAt`/`updatedAt` of the schemas), `accessibleFiles`, and the sub-document `_id`s returned by `getVault` are not modelled.
- `REFRESH_TOKEN_TTL_DAYS` is taken as an integer. A value that parses to NaN is not modelled.
- `String(...)` coercion of non-string request fields is not modelled. Neither is the difference between `undefined` and `""`: both are the empty string.
- String lengths count Dafny characters. JavaScript counts UTF-16 code units, which differ only outside the Basic Multilingual Plane.
- DashboardController.VaultStore.UpdateVault: models the intended update of a new division. The code as written is modelled by `SaveToDivisionAsWritten`; see Findings.
- Files (`fileController.ts`), the server wiring, routes, validation middleware, the frontend and logging are not part of this model.

## Findings

| source | as written | input that shows it | evidently intended | confidence | as-written member | corrected member |
|---|---|---|---|---|---|---|
| backend/src/controllers/dashboardController.ts:86-95 | For a missing division, the handler pushes the plain object `{ name, credentials: [] }` into `vault.divisions`. Mongoose casts it into a new sub-document with its own credential array. The credential is then pushed onto the plain object's array, which is never saved. | `updateVault` with a `divisionName` the vault does not have yet: the reply is 200, but the stored division is empty | The new division is stored holding the credential | medium: depends on Mongoose casting on push; not executed | DashboardController.SaveToDivisionAsWritten, DashboardController.AsWrittenLosesFirstCredential | DashboardController.SaveToDivision, DashboardController.SavedPasswordReadsBack |
