# Authentication core of parcel2u, modelled in Dafny

This project models the `internal/auth` package of parcel2u, a multi-role web service:

- `AuthMiddleware`, the guard in front of protected routes. It reads the `Authorization`
  header, splits it on one space and wants exactly `Bearer <token>`. It verifies the token and
  wants a string `username` claim. Only then does it call the wrapped handler, with the username
  bound in the request context under the package's own key.
- The `RegisterUser` and `LoginUser` HTTP handlers. Each is a fixed chain of stages: decode,
  validate, hash or look up, store or compare, issue a token, respond. The first stage that
  fails decides the status and the body.
- The `Password` credential (`SetHash`, `CompareHash`), the `User` record, whose JSON form
  leaves out the password, and the `UserService` store contract (`Create`, `GetByUsername`).

Files and modules:

| file | module | models |
|---|---|---|
| base.dfy | `Base` | Option, Result, bytes, UUID and time values |
| http.dfy | `Http` | status codes, JSON values, response bodies, `http.Error` |
| gostrings.dfy | `GoStrings` | `strings.Split` / `strings.Join` for a one-character separator |
| tokens.dfy | `Tokens` | claim values and the types of `CreateToken` / `VerifyToken` |
| auth.dfy | `Auth` | `AuthMiddleware` (auth.go) |
| validator.dfy | `Validator` | the validator tags used by the payloads (`required`, `omitempty`, `min`, `max`, `oneof`) |
| users.dfy | `Users` | `Password`, `User`, the user table and `UserStore` (users.go) |
| handlers.dfy | `Handlers` | payloads, `RegisterUser`, `LoginUser` and the response writers (handler.go) |

How the model is built:

- `Auth.Authenticate` is a pure function from a request and a token verifier to an
  `Outcome`. The outcome is `Reject(status, message)` or `Proceed(request)`, where the request
  carries the bound context. `Auth.Serve` composes it with `next`.
- `Password`, `User`, `UserStore` and `Handler` are classes whose methods update fields in
  place, as the Go pointer receivers do. The table is a `map` from username to `Row`, keyed by
  the unique username. Each handler method is proved equal to a pure function of the old state.
  These functions are `Handlers.Register`, which returns the response and the new table, and
  `Handlers.Login`. The lemmas about the pipelines are proved about these two functions.
- bcrypt, `CreateToken` and `VerifyToken` are given functions (parameters). Hashing is
  randomised, so the salt it draws is an input, and hashing may fail. bcrypt's promise that a
  password matches its own hash is the ghost predicate `Users.RoundTrip`. Only the lemmas that
  need it assume it.
- The database is reduced to the in-memory table. A backend fault (timeout, lost connection)
  is an input `fault: Option<string>`. The id and creation time the database assigns are
  inputs too.
- Strings are sequences of Unicode scalar values, so `|s|` is the rune count that the
  validator's `min` and `max` compare against.

The model follows the code where it departs from what the design evidently intends:

- A duplicate username at registration gives 500 ("failed to create user: ..."), though a
  duplicate is a client mistake (handler.go:63-66).
- The registration 500 body includes the store's error text, and the middleware's 401 includes
  the verifier's error text (handler.go:64, auth.go:31). Nothing hides these internal details.
- Registration errors are written by `http.Error` as plain text. Login errors are written as a
  JSON object `{"error": ...}` (handler.go:43, 132-136).
- Besides the missing header, the malformed header and the refused token, the middleware has a
  fourth rejection: 401 "invalid token claims" when the `username` claim is missing or not a string (auth.go:35-39).
- When token issuance fails after a successful insert, registration answers 500, but the user
  stays stored (handler.go:68-72).

## Model

| member | source | states |
|---|---|---|
| `GoStrings.JoinSplit` | internal/auth/auth.go:22 | joining the parts of `strings.Split` with the separator gives back the header |
| `GoStrings.SplitPartsLackSep` | internal/auth/auth.go:22 | no part of a split contains the separator |
| `GoStrings.SplitLength` | internal/auth/auth.go:22-23 | a split has one part more than the header has spaces |
| `GoStrings.SplitWithoutSep` | internal/auth/auth.go:22 | a string without a space is its own single part |
| `GoStrings.SplitAfterField` | internal/auth/auth.go:22 | a space-free field followed by a space is the first part, and the rest is split on its own |
| `Auth.BearerFormSplits` | internal/auth/auth.go:22-27 | `Bearer <t>` with no space in `t` splits into exactly `["Bearer", t]` |
| `Auth.TwoPartsAreBearerForm` | internal/auth/auth.go:22-23 | two parts, the first exactly `Bearer`, only arise from `Bearer <t>` with no space in `t` |
| `Auth.BearerTokenShape` | internal/auth/auth.go:22-27 | the format check passes iff the header is `Bearer ` followed by a space-free token, and the token is everything after `Bearer ` |
| `Auth.OtherSchemeRefused` | internal/auth/auth.go:23-26 | `Basic abc` is refused |
| `Auth.LowerCaseSchemeRefused` | internal/auth/auth.go:23 | the scheme is matched case-sensitively: `bearer abc` is refused |
| `Auth.ThirdPartRefused` | internal/auth/auth.go:23 | `Bearer a b` (three parts) is refused |
| `Auth.DoubleSpaceRefused` | internal/auth/auth.go:23 | `Bearer  x` (double space) is refused |
| `Auth.AcceptedHeaders` | internal/auth/auth.go:27-29 | `Bearer ` passes the empty token to the verifier and `Bearer abc` passes `abc` |
| `Auth.MissingHeaderRejected` | internal/auth/auth.go:16-20 | an absent or empty header gives 401 "authorization header is missing" and never reaches `next` |
| `Auth.MalformedHeaderRejected` | internal/auth/auth.go:22-26 | a present header that is not `Bearer <token>` gives 401 "invalid authorization header format" |
| `Auth.OnlyTheTokenIsVerified` | internal/auth/auth.go:27-29 | the verifier is consulted on exactly the second split part: verifiers that agree on it give the same outcome |
| `Auth.VerifyFailureRejected` | internal/auth/auth.go:29-33 | a token that fails verification gives 401 "invalid or expired token: " plus the reason, and `next` is not called |
| `Auth.BadClaimsRejected` | internal/auth/auth.go:35-39 | verified claims without a string `username` give 401 "invalid token claims" |
| `Auth.ProceedExactlyWhenAuthenticated` | internal/auth/auth.go:14-45 | `next` runs iff the header has the Bearer form, the token verifies and `username` is a string; its request has the same headers and the old context with `userKey` bound to that username; every other outcome is a 401 |
| `Auth.ServeOneOfTwo` | internal/auth/auth.go:14-45 | each request either gets the 401 text response, with `next` not consulted, or exactly what `next` answers for the authenticated request |
| `Validator.FirstFailure` | internal/auth/handler.go:11-20 | the tag the validator reports is one of the field's tags, and that tag refuses the value |
| `Validator.FirstFailureAccepts` | internal/auth/handler.go:11-20 | walking a tag chain finds no failure iff every tag not switched off by an earlier `omitempty` on an empty value accepts |
| `Validator.FieldErrors` | internal/auth/handler.go:47-50 | one field yields at most one error, naming that field and one of its tags that refuses its value |
| `Validator.ValidateStruct` | internal/auth/handler.go:47-50 | no more errors than fields, each naming a field and a tag of that field that refuses its value |
| `Validator.ErrorsNameFields` | internal/auth/handler.go:47-50 | every reported error names one of the struct's fields |
| `Validator.ValidateStructOnePerField` | internal/auth/handler.go:47-50 | when the field names are distinct, no field is reported twice |
| `Validator.ValidateStructEmpty` | internal/auth/handler.go:47-50 | struct validation reports nothing iff no field on its own reports an error |
| `Validator.ValidateStructAccepts` | internal/auth/handler.go:47-50 | struct validation reports nothing iff every field's chain accepts its value |
| `Handlers.UsernameTags` | internal/auth/handler.go:12 | the username tags refuse nothing iff the username has 1 to 100 characters |
| `Handlers.PasswordTags` | internal/auth/handler.go:13 | the password tags refuse nothing iff the password has 3 to 72 characters |
| `Handlers.RoleTags` | internal/auth/handler.go:14 | the role tags refuse nothing iff the role is empty or one of `student`, `dispatcher`, `admin` |
| `Handlers.RegisterValidation` | internal/auth/handler.go:11-15 | a registration payload passes iff the username has 1 to 100 characters, the password 3 to 72, and the role is empty, `student`, `dispatcher` or `admin` |
| `Handlers.LoginValidation` | internal/auth/handler.go:17-20 | a login payload passes iff username and password are both non-empty |
| `Handlers.PasswordLengthBounds` | internal/auth/handler.go:13 | with a good username and no role, lengths 2 and 73 fail while 3 to 72 pass |
| `Handlers.UnknownRoleRejected` | internal/auth/handler.go:14 | a role outside the enumeration, such as `superuser`, fails validation |
| `Handlers.Handler.RegisterUser` | internal/auth/handler.go:39-80 | the response and the new table are exactly those of the stage pipeline `Register` on the old table |
| `Handlers.Handler.LoginUser` | internal/auth/handler.go:82-124 | the response is exactly that of the stage pipeline `Login` over the current table, and the table is not changed |
| `Handlers.RegisterBadRequest` | internal/auth/handler.go:41-50 | registration gives 400 iff the body does not decode or breaks a rule, and a 400 stores nothing |
| `Handlers.RegisterStatuses` | internal/auth/handler.go:39-80 | registration answers only 201, 400 or 500, and 201 iff the payload is valid, hashing works, the insert is accepted and a token is issued |
| `Handlers.RegisterStoresOnlyAfterHashing` | internal/auth/handler.go:52-66 | the table changes only after validation and hashing succeeded and the insert was accepted, and then gains exactly the new row carrying the hash |
| `Handlers.RegisterStoresAfterInsert` | internal/auth/handler.go:52-72 | conversely, once validation and hashing succeed and the insert is accepted, the table gains exactly the new row, whether or not a token is issued afterwards |
| `Handlers.RegisterStopsBeforeCreate` | internal/auth/handler.go:41-60 | after a failed decode, validation or hash, neither the store, nor the assigned id and time, nor the token issuer affect the outcome |
| `Handlers.RegisterIssuesOnlyAfterCreate` | internal/auth/handler.go:63-72 | when the insert fails, the token issuer is not consulted |
| `Handlers.RegisterSuccess` | internal/auth/handler.go:68-79 | a 201 carries the token issued for the payload username and the stored user (assigned id and time, payload username and role); the stored row holds the hash |
| `Handlers.OmittedRoleIsEmpty` | internal/auth/handler.go:52-55 | a body without a role registers a user whose role is the empty string |
| `Handlers.DuplicateUsernameIsServerError` | internal/auth/handler.go:63-66 | registering a username that is already stored gives 500 and leaves the table unchanged |
| `Handlers.SecondRegistrationFails` | internal/auth/handler.go:63-66 | after a successful registration, registering the same body again gives 500 and stores nothing |
| `Handlers.RegisterResponseHidesHash` | internal/auth/users.go:17-23 | the registration response does not depend on the hash bytes, only on whether hashing succeeded |
| `Handlers.LoginBadRequest` | internal/auth/handler.go:84-94 | login gives 400 iff the body does not decode or a field is empty |
| `Handlers.LoginDoesNotRevealUsernames` | internal/auth/handler.go:97-108 | a failed lookup and a wrong password give the identical response: 401 with `{"error":"invalid credentials"}` |
| `Handlers.LoginSuccess` | internal/auth/handler.go:104-123 | login gives 200 iff the payload is valid, the user is found, the password matches and a token is issued for the stored username; the body is that user and that token |
| `Handlers.LoginTokenFailure` | internal/auth/handler.go:110-115 | a matching password whose token cannot be issued gives 500 "failed to generate token" |
| `Handlers.LoginResponseHidesHash` | internal/auth/handler.go:117-123 | the login response depends on the stored hash only through the comparator's verdict |
| `Handlers.RegisteredUserCanLogIn` | internal/auth/handler.go:39-124 | under bcrypt's round-trip promise, a user who registered can log in with the same body, if the store does not fail |
| `Handlers.LoginAsWrittenNeverSucceeds` | internal/auth/users.go:72-96 | with the lookup as written, every login ends in 400 or 401 |
| `Users.Password.SetHash` | internal/auth/users.go:30-38 | a successful hash sets `hash` to the output and `text` to the plaintext; a failed hash returns the error and changes neither |
| `Users.Password.CompareHash` | internal/auth/users.go:40-42 | the result is the comparator's verdict on the stored hash and the candidate; nothing is modified |
| `Users.SetHashThenCompare` | internal/auth/users.go:30-42 | under bcrypt's round-trip promise, `CompareHash(t)` succeeds after a successful `SetHash(t)` |
| `Users.UserJson` | internal/auth/users.go:17-23 | the serialised user has exactly the members `id`, `username`, `role`, `created_at`, and no `password` |
| `Users.User.constructor` | internal/auth/handler.go:52-55 | a new user has the given username and role, the nil id, the zero time and an unset password |
| `Users.JsonIgnoresPassword` | internal/auth/users.go:20 | two users that differ at most in their passwords serialise identically |
| `Users.InsertError` | internal/auth/users.go:53-70 | an insert succeeds iff the backend is healthy and the username is not yet stored; a stored username is a duplicate-key error |
| `Users.Lookup` | internal/auth/users.go:72-96 | a lookup finds the stored row iff the backend is healthy and the username is stored; an unknown username is "no rows" |
| `Users.UserStore.Create` | internal/auth/users.go:53-70 | a successful insert adds a row with the user's username, hash (not plaintext) and role, and writes the assigned id and creation time into the user; a failed one changes nothing; username and role are never changed |
| `Users.UserStore.GetByUsername` | internal/auth/users.go:72-96 | the user is nil exactly when an error is returned; otherwise it is a new user filled from the stored row |
| `Users.LookupAsWrittenAlwaysFails` | internal/auth/users.go:74-89 | the SELECT's six columns meet five Scan destinations, so every lookup as written fails |

## Findings

| source | as written | input that shows it | evidently intended | confidence | as-written member | corrected member |
|---|---|---|---|---|---|---|
| internal/auth/users.go:74-89 | the lookup selects six columns (`id, username, email, password_hash, role, created_at`) but scans into five destinations, and database/sql refuses a Scan whose destination count differs from the column count; if the table has no `email` column the query fails instead | any login for a stored user, e.g. username `alice` registered with password `secret` | select the five columns that are scanned, so that a stored user is found | high, not executed | `Users.LookupAsWritten` (`Users.LookupAsWrittenAlwaysFails`, `Handlers.LoginAsWrittenNeverSucceeds`) | `Users.Lookup` (`Users.UserStore.GetByUsername`, `Handlers.RegisteredUserCanLogIn`) |

## Left out

- The HTTP server: routing, CORS, request parsing and response writing. A response is a status and a body. The `Content-Type` and `X-Content-Type-Options` headers are not modelled.
- JSON decoding is reduced to the string members the payload reads (`username`, `password`,
  `role`), or a refusal. Unknown members of any type are dropped and a `null` member leaves the
  field empty, so neither appears in the model's map. Only a non-null, non-string value under
  one of the payload's own member names makes decoding fail; the model folds that case into a
  refused body. Case-insensitive member matching and duplicate members are not modelled.
- JSON encoding: a UUID and a time are leaves. Their text forms (the canonical UUID string, RFC 3339) are not modelled.
- The validator's error text follows its "Key: ... Error:Field validation for ... failed on the ... tag" format. That format comes from the library, which is not part of this model.
- The text of database driver errors. The duplicate-username and fault messages are the model's own stand-ins.
- bcrypt internals (cost, salt generation, the 72-byte input limit) are out, because bcrypt is a foreign library. Hashing is a given function that may fail. A password of 72 characters can be more than 72 bytes, and the model covers the failure that an input limit would cause only as "hashing may fail".
- `CreateToken` and `VerifyToken` (signing, secret, expiry): they are not part of this model. They are given functions, fixed for the duration of one request.
- The SQL text, `context.WithTimeout` (the 5-second bound) and cancellation. The store is an in-memory table, and a timeout is one kind of backend fault.
- Concurrency: two registrations racing for one username are modelled one after the other (`Handlers.SecondRegistrationFails`). Atomicity of the database insert is not modelled.
- `log.Printf` calls: logging only.
- `NewHandler` and `NewUserStore` are modelled as the constructors `Handlers.Handler.constructor` and `Users.UserStore.constructor`. The database handle is replaced by the in-memory table.
- `Users.Password.CompareHash`: returns the comparator's yes/no verdict instead of bcrypt's error value (nil exactly when it matches). The kind of mismatch error is not modelled.
