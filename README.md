# Refresh-token session protocol, modelled in Dafny

The backend authenticates users with a password and then keeps them signed in
with two kinds of JSON Web Tokens:

- a one-hour **access token**, carrying `{id, username, email}`, signed with
  `JWT_SECRET` and presented as the second word of the `Authorization` header;
- a seven-day **refresh token**, carrying `{id}` only, signed with
  `REFRESH_TOKEN_SECRET`, sent as an HTTP-only cookie and also stored in Redis
  under `refresh:<id>`. There is one slot per user, so a login or a refresh
  overwrites the previous token.

This project models that protocol:

- the three controller handlers `registerUser`, `loginUser` and `refresh`;
- the token helpers in `jwt.js`;
- the access guard `authenticateToken`;
- the username and password rules of the two zod schemas;
- the `validate(schema)` middleware.

Modules, one per file:

- `Wrappers`: `Option`.
- `Text`: JavaScript's `split(" ")` and `join(", ")`, `String(n)` for ids, and `.length` in UTF-16 code units.
- `TokenFormat`: the token as a value and a canonical string form for it. It has a round trip in both directions, and the string form is one space-free word.
- `Jwt`: `sign`/`verify` with time as a parameter, `generateToken`, `generateRefreshToken` and `verifyToken`.
- `AuthSchema`: the username and password rules, with their issue messages in zod's order.
- `Http`: `Request`, `Response` and `next`, as classes whose fields the handlers write.
- `Validate`: the validation middleware and its error string.
- `AuthMiddleware`: token extraction, the accept/reject decision, and the guard as a method.
- `AuthController`: the state and the handlers. The state is the users table, the next serial id and the Redis registry. Each handler is a specification function from the old state to the new state and the response (`RegisterStep`, `LoginStep`, `RefreshStep`). Each is also a method of the class `AuthService`, which updates its fields step by step. The three handler methods `RegisterUser`, `LoginUser` and `Refresh` are each proved equal to their specification function and proved to keep the invariant `Inv`:
  - usernames are unique;
  - ids are unique and below the next serial;
  - every registry slot holds a seven-day refresh token for an existing user, minted with the refresh secret, under that user's own key.
- `SessionProperties`: what the handlers promise, branch by branch and over sequences of requests:
  - register then login;
  - login then refresh;
  - rotation revokes the old token;
  - a second login revokes the first.

Collaborators are parameters:

- bcrypt is a `Hasher` value (`hash`, `compare`). Its random salt is an argument. Two facts about it are ever assumed, each by one lemma and for the one password concerned: `compare(p, hash(p, 10, salt))` by `SessionProperties.RegisterThenLogin`, and `hash(p, 10, salt) != p` by `SessionProperties.RegisterStoresNoPlaintext`. The two are independent.
- The clock is an argument `now`, in whole seconds.
- `z.email()` is an `EmailRule` value (an acceptance predicate and its message).
- The secrets are a `Config` value. An unset environment variable is modelled as the empty string.

A signature is modelled as the secret that produced it. Verification succeeds exactly when the verifying secret is non-empty, the token decodes, it was signed with that secret, and `now < exp`.

Tokens carry no nonce: `jsonwebtoken` sets `iat` to the current second and adds nothing random. So two refresh tokens for the same id minted in the same second are the same string (`Jwt.RefreshTokenIdentity`). Rotation therefore revokes the presented token only when that token was minted in an earlier second (`SessionProperties.RotationFreshness`, `SessionProperties.RotationRevokesOldToken`). In the same second, the "new" token is the old one and stays valid (`SessionProperties.SameSecondRotationKeepsOldToken`). One might expect a rotated token to fail from then on; the code guarantees this only across seconds, and the model follows the code.

Two different 404 messages ("User not found", "Wrong Username or Password") reveal which usernames exist; the model keeps them, as the code does. The access guard likewise answers 404, not 401, in both of its failure cases, and does not check that the scheme word is `Bearer` (see section 2.1 of RFC 6750).

An empty or unset secret is modelled the way `jsonwebtoken` treats it: `sign` throws, and `verify` fails for every token. A throw from `generateToken` or `generateRefreshToken` lands in the handler's `catch`:
- registration answers 500 "Server error during registration", and the row it has just inserted stays in the table;
- login answers 500 "Server error during login" before touching Redis;
- refresh with an unset access secret answers 500 "Server error during refresh" after the session check.

A refresh secret that is unset makes every cookie fail verification, so `refresh` answers 403 (`SessionProperties.UnsetRefreshSecretRefreshesNothing`). An unset `JWT_SECRET` makes the access guard refuse every request (`AuthMiddleware.UnsetSecretAdmitsNobody`).

## Model

| member | source | states |
|---|---|---|
| Text.Split | Backend/middleware/AuthMiddleware.js:7 | `split(" ")` yields one more piece than there are separators, and no piece contains the separator |
| Text.JoinSplit | Backend/middleware/AuthMiddleware.js:7 | joining the pieces of a split with the separator gives back the header |
| Text.SplitJoin | Backend/middleware/AuthMiddleware.js:7 | splitting a join of separator-free pieces gives back the pieces |
| Text.SplitWithoutSeparator | Backend/middleware/AuthMiddleware.js:7 | a header without a space splits into itself alone |
| Text.SplitAfterPiece | Backend/middleware/AuthMiddleware.js:7 | a space-free word followed by a space is the first piece of the split |
| Text.CountZero | Backend/middleware/AuthMiddleware.js:7 | no separator is counted exactly when the separator does not occur |
| Text.JoinAppend | Backend/middleware/Validate.js:13 | `join` of one more message adds the separator and that message |
| Text.JoinAvoids | Backend/middleware/Validate.js:13 | a character in neither the pieces nor the separator is not in the join |
| Text.JoinLength | Backend/middleware/Validate.js:13 | the joined string is the messages plus one separator between each pair of neighbours |
| Text.JoinPieceAt | Backend/middleware/Validate.js:13 | each message stands, unchanged and in order, at its offset in the joined string |
| Text.Join | Backend/middleware/Validate.js:13 | `join(sep)`; characterised by `Text.JoinLength`, `Text.JoinPieceAt` and `Text.JoinAppend`, and by `Text.JoinSplit`/`Text.SplitJoin` as the inverse of `split` |
| Text.DigitChar | Backend/controllers/AuthController.js:68 | a digit value below ten becomes a decimal digit character |
| Text.Decimal | Backend/controllers/AuthController.js:68 | `${id}` is a non-empty string of decimal digits |
| Text.DecimalValue | Backend/controllers/AuthController.js:68 | reading back the decimal form of an id gives the id |
| Text.DecimalInjective | Backend/controllers/AuthController.js:68 | two ids have the same decimal form exactly when they are equal |
| Text.Utf16Length | Backend/shcemas/auth.schema.js:7-8 | the length zod's `min` counts lies between the character count and twice that, and equals the character count exactly when no character is astral |
| TokenFormat.Codes | Backend/utils/jwt.js:7-15 | a string field is written as one non-empty run of digits per character |
| TokenFormat.Decode | Backend/utils/jwt.js:27-33 | whatever decodes re-encodes to the very string that was decoded |
| TokenFormat.DecodeNatDecimal | Backend/utils/jwt.js:7-15 | a time or id written in decimal reads back as itself |
| TokenFormat.DecodeCodesOfCodes | Backend/utils/jwt.js:7-15 | the code list of a string reads back as that string |
| TokenFormat.CodesAvoid | Backend/utils/jwt.js:7-15 | the code list of a string holds no character other than digits |
| TokenFormat.DecodeEncodeString | Backend/utils/jwt.js:7-15 | an encoded username or email reads back as itself |
| TokenFormat.DecodeOptionalEncode | Backend/utils/jwt.js:7-15 | a username or email claim, present or absent, reads back as written |
| TokenFormat.EncodeStringAvoids | Backend/utils/jwt.js:7-15 | an encoded string uses only digits, ',' and '+' |
| TokenFormat.FieldsAvoid | Backend/utils/jwt.js:7-15 | no field of a token's string form contains the field separator or a space |
| TokenFormat.DecodeEncode | Backend/utils/jwt.js:7-15 | decoding the string form of a token gives that token back |
| TokenFormat.DecodeIsInverse | Backend/utils/jwt.js:27-33 | a string decodes to a token exactly when it is that token's string form |
| TokenFormat.EncodeInjective | Backend/utils/jwt.js:7-15 | two tokens have the same string form exactly when they are the same token |
| TokenFormat.EncodeIsOneWord | Backend/middleware/AuthMiddleware.js:7 | a token's string form is non-empty and has no space, so it fits as one field of the header |
| Jwt.Sign | Backend/utils/jwt.js:7-15 | with a non-empty secret (`sign` throws on an empty one), a signed token decodes to its claims, issued now, expiring now plus the lifetime, signed with the given secret |
| Jwt.Verify | Backend/utils/jwt.js:29 | a successful verification needs a non-empty secret and returns the payload of a token signed with that secret, and only before its expiry |
| Jwt.GenerateToken | Backend/utils/jwt.js:6-16 | with the access secret set, the access token's claims are exactly the user's id, username and email (no password), with the access secret and one hour |
| Jwt.GenerateRefreshToken | Backend/utils/jwt.js:18-25 | with the refresh secret set, the refresh token's claims are exactly the user's id, with the refresh secret and seven days |
| Jwt.VerifySigned | Backend/utils/jwt.js:27-33 | verifying with the signing secret gives back the signed payload before expiry and fails from expiry on |
| Jwt.VerifyOtherSecret | Backend/utils/jwt.js:27-33 | verifying with any other secret, the empty one included, fails at every time |
| Jwt.AccessTokenRoundTrip | Backend/utils/jwt.js:6-33 | `verifyToken(generateToken(u))` is u's id, username and email before the hour is up, and null from then on |
| Jwt.RefreshTokenRoundTrip | Backend/utils/jwt.js:18-25 | a refresh token verifies with the refresh secret to the id alone for seven days, and fails from then on |
| Jwt.TokenKindsDoNotCross | Backend/utils/jwt.js:3-25 | with distinct secrets, a refresh token never verifies as an access token and an access token never verifies as a refresh token |
| Jwt.RefreshTokenIdentity | Backend/utils/jwt.js:18-25 | two refresh tokens are the same string exactly when they name the same id and were minted in the same second |
| Jwt.SecretsSet | Backend/utils/jwt.js:3-4 | both environment secrets are non-empty, the condition under which both minting helpers return instead of throwing. It is the branch condition of `AuthController.LoginStep` between 500 and 200, a requires of `AuthController.AuthService.StartSession` and `AuthController.AuthService.Rotate`, and the condition `SessionProperties.LoginOutcome` and `SessionProperties.RegisterThenLogin` give for a 200 |
| Jwt.VerifyToken | Backend/utils/jwt.js:27-33 | `verify` with the access secret, null on any failure; its meaning is proved by `Jwt.AccessTokenRoundTrip` (its own token, before and after the hour) and `Jwt.TokenKindsDoNotCross` (a refresh token never passes) |
| AuthSchema.UsernameAcceptedMeaning | Backend/shcemas/auth.schema.js:5-10 | a username is accepted exactly when it has at least 3 characters, all in `[a-zA-Z0-9._]` |
| AuthSchema.PasswordRegexMeaning | Backend/shcemas/auth.schema.js:16 | the password expression matches exactly when there is a lowercase letter, an uppercase letter, a digit and a listed special character, at least 8 code units, and no line terminator |
| AuthSchema.PasswordMinSubsumed | Backend/shcemas/auth.schema.js:12-17 | the `min(6)` check never decides: a password is accepted exactly when the expression matches, and then it has at least 6 code units |
| AuthSchema.UnlistedSymbolsRejected | Backend/shcemas/auth.schema.js:16 | a password with no listed special character is refused, and the last issue is the expression's message |
| AuthSchema.SameRulesForLoginAndRegister | Backend/shcemas/auth.schema.js:4-37 | both schemas apply the same username and password rules; registration adds only the email check |
| AuthSchema.UsernameIssues | Backend/shcemas/auth.schema.js:5-10 | the username issues, `min` before `regex`; characterised by `AuthSchema.UsernameAcceptedMeaning` (none exactly when 3+ characters from the class) and `AuthSchema.EmptyUsernameIssues` (both checks fail on "") |
| AuthSchema.PasswordIssues | Backend/shcemas/auth.schema.js:12-17 | the password issues, `min` before `regex`; characterised by `AuthSchema.PasswordMinSubsumed` and `AuthSchema.UnlistedSymbolsRejected` |
| AuthSchema.PasswordRegex | Backend/shcemas/auth.schema.js:16 | the lookahead expression, lookahead by lookahead; characterised by `AuthSchema.PasswordRegexMeaning` |
| AuthSchema.UsernameRegex | Backend/shcemas/auth.schema.js:9 | `/^[a-zA-Z0-9._]+$/`: one or more characters, all in the class; with the `min(3)` check it is characterised by `AuthSchema.UsernameAcceptedMeaning` |
| AuthSchema.EmailIssues | Backend/shcemas/auth.schema.js:28-29 | `z.email()`: one issue with the rule's message exactly when the rule refuses the address; `AuthSchema.SameRulesForLoginAndRegister` shows it is the only check registration adds |
| AuthSchema.LoginParse | Backend/shcemas/auth.schema.js:4-18 | `loginSchema.safeParse`: the username issues then the password issues, parsed only when there are none; characterised by `AuthSchema.SameRulesForLoginAndRegister` and `AuthSchema.EmptyUsernameIssues` |
| AuthSchema.RegisterParse | Backend/shcemas/auth.schema.js:20-37 | `registerSchema.safeParse`: username, email, then password issues; characterised by `AuthSchema.SameRulesForLoginAndRegister` (login's rules plus the email rule) |
| AuthSchema.AcceptedWithWitnesses | Backend/shcemas/auth.schema.js:16 | eight or more characters, none astral and none a line terminator, with one character of each class, make a password accepted |
| AuthSchema.EmptyUsernameIssues | Backend/shcemas/auth.schema.js:4-18 | with an accepted password, an empty username is rejected with exactly the `min` issue then the `regex` issue |
| AuthSchema.ExamplePasswordAccepted | Backend/shcemas/auth.schema.js:16 | "Passw0rd!" is accepted |
| AuthSchema.ExampleTildeRejected | Backend/shcemas/auth.schema.js:16 | "Passw0rd~" is refused: '~' is not a listed special character |
| AuthSchema.ExampleLineTerminatorRejected | Backend/shcemas/auth.schema.js:16 | a password with a newline is refused even though every class is present |
| Http.Response.Send | Backend/controllers/AuthController.js:21 | `res.status(code).json(body)` sets the status and the body |
| Http.Response.Json | Backend/controllers/AuthController.js:82-86 | `res.json(body)` sets the body and keeps the status |
| Http.Response.SetCookie | Backend/controllers/AuthController.js:74-79 | `res.cookie(...)` sets the cookie |
| Http.Next.Call | Backend/middleware/Validate.js:22 | each call of `next` counts once |
| Validate.Messages | Backend/middleware/Validate.js:10 | one message per issue, in order, each the issue's own message |
| Validate.ErrorString | Backend/middleware/Validate.js:10-13 | the messages joined by ", "; characterised by `Validate.ErrorStringOfOne`, `Validate.ErrorStringOfTwo`, `Validate.ErrorStringInOrder` and `Validate.ErrorStringLength` |
| Validate.Validate | Backend/middleware/Validate.js:3-24 | on failure: 400 with "invalid request data" and the joined messages; `next` is not called; `req.validated` is not set. On success: `req.validated` is the parsed data; `next` is called exactly once; nothing is sent |
| Validate.ErrorStringOfOne | Backend/middleware/Validate.js:10-13 | with exactly one issue, the error string is its message |
| Validate.ErrorStringOfTwo | Backend/middleware/Validate.js:10-13 | with two issues, the error string is the two messages with ", " between them |
| Validate.ErrorStringInOrder | Backend/middleware/Validate.js:10-13 | every issue's message appears in the error string at its offset, in issue order |
| Validate.ErrorStringLength | Backend/middleware/Validate.js:10-13 | the error string is the messages plus two characters per separator |
| Validate.ExampleEmptyUsername | Backend/middleware/Validate.js:5-13 | an empty username fails both its checks, and the 400 body lists both messages in order |
| AuthMiddleware.ExtractToken | Backend/middleware/AuthMiddleware.js:7 | an extracted token is non-empty and has no space |
| AuthMiddleware.SecondFieldIsToken | Backend/middleware/AuthMiddleware.js:7 | `<word> <token>` yields the token, whatever the first word is |
| AuthMiddleware.LaterFieldsIgnored | Backend/middleware/AuthMiddleware.js:7 | fields after the second are ignored |
| AuthMiddleware.NoSpaceNoToken | Backend/middleware/AuthMiddleware.js:6-9 | a header with no space yields no token |
| AuthMiddleware.DoubleSpaceNoToken | Backend/middleware/AuthMiddleware.js:7-9 | two spaces after the first word leave the second field empty, so there is no token |
| AuthMiddleware.ExtractedTokenPosition | Backend/middleware/AuthMiddleware.js:7 | an extracted token is exactly what follows the first word and its space, up to the next space |
| AuthMiddleware.Authenticate | Backend/middleware/AuthMiddleware.js:5-17 | the guard's decision; characterised by `AuthMiddleware.AccessTokenAccepted`, `AuthMiddleware.ExpiredAccessTokenRejected`, `AuthMiddleware.RefreshTokenAsBearerRejected` and `AuthMiddleware.UnsetSecretAdmitsNobody`, and carried out by `AuthMiddleware.AuthenticateToken` |
| AuthMiddleware.AuthenticateToken | Backend/middleware/AuthMiddleware.js:5-17 | no token: 404 "Access Denied, no token provided". A token that fails verification: 404 "Invalid Token". In both, `next` is not called and `req.user` is not set. Otherwise `req.user` is the decoded payload, `next` is called exactly once and nothing is sent |
| AuthMiddleware.AccessTokenAccepted | Backend/middleware/AuthMiddleware.js:12-15 | with the access secret set, an access token under any scheme word is accepted with its own payload until its hour is up |
| AuthMiddleware.ExpiredAccessTokenRejected | Backend/middleware/AuthMiddleware.js:12-13 | from the end of its hour on, an access token is refused |
| AuthMiddleware.RefreshTokenAsBearerRejected | Backend/middleware/AuthMiddleware.js:3-13 | with distinct secrets, a refresh token presented as a bearer token is refused, also when the access secret is unset |
| AuthMiddleware.UnsetSecretAdmitsNobody | Backend/middleware/AuthMiddleware.js:3-13 | with an empty `JWT_SECRET`, every request is refused: no token or an invalid token, never acceptance |
| AuthController.RefreshKeyInjective | Backend/controllers/AuthController.js:68 | two users have the same registry key exactly when they have the same id |
| AuthController.RefreshKey | Backend/controllers/AuthController.js:68 | the registry key `refresh:<id>`; characterised by `AuthController.RefreshKeyInjective` and by `SessionProperties.LoginLeavesOtherSessions` |
| AuthController.Strip | Backend/controllers/AuthController.js:29 | the user without the password column (also line 60); `SessionProperties.RegisterOutcome` and `SessionProperties.LoginOutcome` prove the reply user is this password-free record |
| AuthController.UserClaims | Backend/utils/jwt.js:9-11 | the `id`, `username` and `email` read from the password-free user; `SessionProperties.RegisterOutcome` proves the access token carries exactly these, and `SessionProperties.RefreshAccessTokenCarriesIdOnly` that a refresh reads only the id |
| AuthController.RefreshCookie | Backend/controllers/AuthController.js:74-79 | the `refreshToken` cookie: HTTP-only, not secure, same-site strict, path `/` (also lines 130-135); `SessionProperties.LoginOutcome` and `SessionProperties.RefreshOutcome` prove which token it carries |
| AuthController.CookieMissing | Backend/controllers/AuthController.js:98 | `!oldRefreshToken`: no cookie, or the empty string; `SessionProperties.RefreshOutcome` proves it is exactly the 401 case |
| AuthController.RegisterStep | Backend/controllers/AuthController.js:14-43 | `registerUser` as a function from the old state to the new state and the response; characterised by `SessionProperties.RegisterOutcome` and `AuthController.RegisterPreservesInv` |
| AuthController.LoginStep | Backend/controllers/AuthController.js:46-92 | `loginUser` as a state function; characterised by `SessionProperties.LoginOutcome`, `SessionProperties.LoginLeavesOtherSessions` and `AuthController.LoginPreservesInv` |
| AuthController.RefreshStep | Backend/controllers/AuthController.js:94-142 | `refresh` as a state function; characterised by `SessionProperties.RefreshOutcome`, `SessionProperties.RotationFreshness`, `SessionProperties.UnsetRefreshSecretRefreshesNothing` and `AuthController.RefreshPreservesInv` |
| AuthController.FindByUsername | Backend/models/Auth.js:4-15 | the lookup returns a row of the table with that username, and returns nothing exactly when no row has it |
| AuthController.FindAfterInsert | Backend/models/Auth.js:18-24 | after an insert, a lookup of the new username that used to fail finds the new row, and every other lookup is unchanged |
| AuthController.MintedIsRefreshTokenFor | Backend/utils/jwt.js:18-25 | with the refresh secret set, a freshly minted refresh token names its user's id and has the shape the registry invariant asks for |
| AuthController.RegisterPreservesInv | Backend/controllers/AuthController.js:14-43 | registration keeps usernames unique, ids unique and below the next serial, and every slot valid |
| AuthController.SetSlotPreservesInv | Backend/controllers/AuthController.js:67-71 | storing a refresh token freshly minted for an existing user in their slot keeps the invariant |
| AuthController.LoginPreservesInv | Backend/controllers/AuthController.js:46-92 | login keeps the invariant |
| AuthController.RefreshPreservesInv | Backend/controllers/AuthController.js:94-142 | refresh keeps the invariant |
| AuthController.StoredSessionHasUser | Backend/controllers/AuthController.js:109-116 | a cookie that matches its slot belongs to a user in the table |
| AuthController.RefreshAccepted | Backend/controllers/AuthController.js:119-137 | when the cookie verifies and matches its slot and the access secret is set, refresh stores and sets a refresh token minted now and answers 200 with an access token minted now |
| AuthController.AuthService.CreateUser | Backend/models/Auth.js:18-29 | the insert appends one row with the next serial id and returns it |
| AuthController.AuthService.RedisGet | Backend/controllers/AuthController.js:112 | `redis.get` gives the stored string exactly when the key is present |
| AuthController.AuthService.RedisSet | Backend/controllers/AuthController.js:123-127 | `redis.set` replaces the key's entry and leaves the other keys alone |
| AuthController.AuthService.RegisterUser | Backend/controllers/AuthController.js:14-43 | it changes the users table and response exactly as `RegisterStep` says (400 on a taken name; 500 with the new row kept when the access secret is unset; otherwise 201), keeps the invariant, and never writes the registry |
| AuthController.AuthService.LoginUser | Backend/controllers/AuthController.js:46-92 | it changes the registry and response exactly as `LoginStep` says (404, 404, 500 on an unset secret, or 200), keeps the invariant, and never writes the users table |
| AuthController.AuthService.StartSession | Backend/controllers/AuthController.js:59-86 | for an existing user with both secrets set: the user's slot becomes a refresh token minted now with a seven-day TTL, the same token is the cookie, the reply is 200 with the password-free user and an access token minted now, nothing else changes, and the invariant holds |
| AuthController.AuthService.Answer | Backend/controllers/AuthController.js:21 | an early `res.status(code).json(body)`: the response is exactly that code and body with no cookie, and the state is unchanged |
| AuthController.AuthService.Rotate | Backend/controllers/AuthController.js:118-137 | with both secrets set, it mints both tokens, overwrites the user's slot, sets the cookie and answers with the access token, keeping the invariant |
| AuthController.AuthService.Refresh | Backend/controllers/AuthController.js:94-142 | it changes the registry and response exactly as `RefreshStep` says, keeps the invariant, and never writes the users table |
| AuthController.AuthService.CheckSessionAndRotate | Backend/controllers/AuthController.js:109-137 | for a cookie that verified: the state and response are exactly what `RefreshStep` gives (403 on a slot mismatch, 500 on an unset access secret, otherwise the rotation), and the invariant holds |
| SessionProperties.RegisterOutcome | Backend/controllers/AuthController.js:14-43 | a taken username is a 400 that changes nothing (and only then is it 400). Otherwise exactly one row is appended with the next id and the value `hash(p, 10, salt)` returns as its password, and the new row is found by its username; the answer is 500 "Server error during registration" exactly when the access secret is unset, else 201. On 201 the reply user has no password and the access token verifies to the new id, username and email. The registry is never written and no cookie is set |
| SessionProperties.RegisterStoresNoPlaintext | Backend/controllers/AuthController.js:25-26 | when `hash(p, 10, salt)` differs from `p`, no row registration adds holds the plaintext password |
| SessionProperties.LoginOutcome | Backend/controllers/AuthController.js:46-92 | 404 exactly when the username is unknown ("User not found") or `compare` fails ("Wrong Username or Password"); both change nothing. Otherwise 500 "Server error during login" with nothing changed exactly when a secret is unset. On success: 200; the user's slot becomes the cookie's token with a TTL equal to the token's seven-day lifetime; that token verifies to the id alone; the reply carries the password-free user and an access token for them; the users table is untouched |
| SessionProperties.LoginLeavesOtherSessions | Backend/controllers/AuthController.js:67-71 | a login leaves every other user's slot as it was |
| SessionProperties.RefreshOutcome | Backend/controllers/AuthController.js:94-142 | 401 exactly when the cookie is missing or empty. 403 exactly when it does not verify with the refresh secret or differs from its slot. 500 exactly when it matches its slot but the access secret is unset. These change nothing and set no cookie. Otherwise 200: the slot and the cookie are set to a new seven-day refresh token for the same id. The users table is never touched |
| SessionProperties.RefreshAccessTokenCarriesIdOnly | Backend/controllers/AuthController.js:119 | the access token `refresh` mints carries the user's id and neither username nor email |
| SessionProperties.SlotTokenClaims | Backend/controllers/AuthController.js:109-116 | a cookie that matches its slot carries only the id and is a seven-day token signed with the refresh secret |
| SessionProperties.RotationFreshness | Backend/controllers/AuthController.js:120 | rotation hands out a different token exactly when the presented one was minted in an earlier second |
| SessionProperties.RotationRevokesOldToken | Backend/controllers/AuthController.js:119-137 | after a rotation that minted a different token, the old token is refused with 403 at any time, and nothing changes |
| SessionProperties.SameSecondRotationKeepsOldToken | Backend/controllers/AuthController.js:119-127 | a rotation in the second the token was minted sets the same token again, and it is accepted again |
| SessionProperties.RegisterThenLogin | Backend/controllers/AuthController.js:25-57 | a user who has just registered can log in with the same password (200 with their password-free record when both secrets are set, 500 otherwise), given only that `compare` accepts a password against its own hash |
| SessionProperties.LoginThenRefresh | Backend/controllers/AuthController.js:63-120 | the cookie a login sets is accepted by `refresh` until seven days after the login |
| SessionProperties.SecondLoginRevokesFirst | Backend/controllers/AuthController.js:67-71 | after a second login in a different second, the first login's refresh token is refused with 403 |
| SessionProperties.UnsetRefreshSecretRefreshesNothing | Backend/controllers/AuthController.js:96-107 | with an empty refresh secret, `refresh` never succeeds: 401 without a cookie, 403 with one, state unchanged and no cookie set |

## Left out

- The 500 answers for a throw from the database, Redis or bcrypt are left out: those collaborators are modelled as total. Only the throws of `jwt.sign` on an empty secret are modelled.
- The environment is read once per process: `REFRESH_TOKEN_SECRET` is read at import in `jwt.js` and again on every refresh in the controller, and the model takes both reads to give the same `Config` value. A secret changed while the server runs is not modelled.
- Request bodies are modelled as three strings. A missing or non-string field, which zod refuses with its own type messages, is not modelled.
- `z.email()` is left abstract, as a parameter giving acceptance and a message. Its pattern belongs to the zod library.
- bcrypt is not modelled: no salt format, no cost, no 72-byte truncation. `hash` and `compare` are parameters.
- SessionProperties.RegisterStoresNoPlaintext: bcrypt's one-wayness is not modelled. That the plaintext is never stored is proved only under the premise that `hash` does not return the password itself.
- The JWS compact format is replaced by a canonical stand-in encoding: no base64url, no header, no HMAC. The stand-in keeps what the protocol relies on: the payload and signing secret are recovered exactly, and the string form is one word.
- The algorithm choice and `jsonwebtoken`'s clock tolerance options are not modelled, because the source sets none of them.
- Redis TTL eviction is not modelled: an entry stays until it is overwritten. Its time to live is recorded and proved equal to the refresh token's lifetime.
- Each handler reads the clock once: the verification and both signings in `refresh`, and both signings in `login`, share one `now`. In the source each `jsonwebtoken` call takes its own `Date.now()`, so they can fall in different seconds. The exact `iat` and `exp` that `SessionProperties.RotationFreshness` and `SessionProperties.SameSecondRotationKeepsOldToken` speak of assume they do not.
- Strings are sequences of Unicode scalar values. A lone UTF-16 surrogate, which a JavaScript string and zod accept, cannot be written. `Text.Utf16Length` and the astral-character premise of `AuthSchema.AcceptedWithWitnesses` rely on this.
- The concurrent refresh race (two requests reading the same slot before either writes) is not modelled. Every handler is one atomic step.
- Cookie parsing, routing, CORS and the HTTP server are left out. The cookie and the header are given to the handlers as optional strings.
- The frontend is not part of this model.
- The other models and controllers (sales, business, dashboard) are not part of this model.
