# Authentication controller, modelled in Dafny

This project models the account logic of the social network API's
authentication controller (`src/controllers/authController.js`). The
controller has six Express handlers: `register`, `login`,
`sendVerificationMail`, `verifyVerificationMail`, `sendForgotMail` and
`resetPassword`. Underneath the HTTP plumbing they form a small sequential
state machine over two stores:

- the users table, keyed by username; each row holds the full name, email,
  password hash and `verified` flag;
- the session's pending password-reset codes, also keyed by username.

Each handler is a pure function (`Auth`). It takes the collaborators, the
state and the request parameters. It returns either exactly one typed
`Error`, with the state untouched, or a response payload together with the
next state. `Lifecycle` runs sequences of requests through the handlers and
proves the invariants and multi-request handshakes.

Modules:

- `Wrappers`: `Option` and `Result`.
- `Decimal`: decimal rendering of an integer (`Number#toString`) and its inverse.
- `Utf8`, `QueryString`: the percent-encoding that `url.format` applies to the
  `token` query value, and a strict decoder for it.
- `VerificationUrl`: the verification link built from `DOMAIN`, `PORT` and the
  token, and a parser that reads the authority and token back.
- `Accounts`: users, state, errors, claims, reply bodies, and the public view
  of a row.
- `Auth`: the six handlers.
- `Lifecycle`: requests, `Next`/`Run`, the invariants and the handshake
  lemmas.

Collaborators that are not part of this model are passed in as
uninterpreted functions in `Accounts.Services`:

- the `User` model's validation (`validate`);
- password hashing (`encryptPassword`) and checking (`comparePassword`);
- the two token generators (`generateAccessToken`, `generateVerificationToken`),
  each a function of the user row it is called on;
- `jwt.verify` under the process secret (`decode`), which yields either claims
  `{username, verify}` or an opaque error.

Lemmas that need a fact about a collaborator state it as a hypothesis. For
example, `RegisterThenLogin` assumes the hasher accepts a password against
its own hash.

Modelling decisions taken from the code:

- A string parameter counts as missing exactly when JavaScript's `!x` holds:
  it is absent or empty (`Accounts.Present`). The same rule decides whether
  `DOMAIN` and `PORT` are set (`VerificationUrl.Truthy`).
- In `register`, the row is validated before it is saved, so an invalid draft
  fails with `Invalid` even when the username is also taken. A taken username
  surfaces at save time as `UsernameTaken`.
- `sendVerificationMail` checks the `verified` flag of the authenticated
  user's copy (`req.user`). It mails the link to that copy's email. The token
  is issued by the row looked up under that username.
- In two places the code dereferences a user lookup that can come back empty.
  At lines 66-67 the throw reaches `asyncHandler`, which passes it to the
  error middleware. At lines 110-112 it happens inside the `jwt.verify`
  callback, where `asyncHandler` cannot catch it, so the client gets no
  response at all. The model stands in for both crashes with an explicit
  `UserGone` error that leaves the state unchanged.
- `resetPassword` calls `validate({ field: ['password'] })`. The option that
  Sequelize recognises is `fields`, so the call validates the whole row. The
  model therefore validates the stored row with the new plaintext password
  in place (`Auth.ResetDraft`).
- Codes are compared with `!==` against the pending value. A reset presenting
  any code when none is pending fails with `InvalidForgotCode`.
- `req.session.append(username, code)` is assumed to overwrite any pending
  code for that username. `get` is assumed to return the latest value, or
  nothing. The session utility is not part of this model.
- `req.session` belongs to one client, but the model keeps a single `codes`
  map for all requests, as if every request came from the same session. A
  reset therefore sees every pending code here, whereas in the service a
  reset sent from another session would not see the code.
- The verification link follows `url.format`:
  - protocol `http:` with `//`;
  - hostname `DOMAIN`, or `localhost` when `DOMAIN` is not set;
  - `:PORT` only when `DOMAIN` is not set and `PORT` is set;
  - path `/api/v1/auth/verify`;
  - query `token=` followed by the token in `querystring.escape` form (UTF-8,
    with bytes outside `A-Z a-z 0-9 - _ . ! ~ * ' ( )` written as `%XX`).

## Model

| member | source | states |
|---|---|---|
| `Auth.Register` | src/controllers/authController.js:9-28 | An incomplete or invalid draft fails with `Invalid`, before the username is checked. A valid draft with a taken username fails with `UsernameTaken`. Otherwise exactly one row is added: the password is hashed and the row is unverified. The codes are unchanged, and the reply is the new row's public view with the access token the new row issues. |
| `Auth.Login` | src/controllers/authController.js:30-57 | The failures come in a fixed order: a missing username or password, then an unknown username, then a password the hasher rejects. Success happens exactly when all three checks pass. It returns the stored row's public view and the access token that row issues, and the state is unchanged. |
| `Accounts.Plain` | src/controllers/authController.js:18 | The plain object of a row has exactly the keys `username`, `fullName`, `email`, `password` and `verified`, and it carries the password hash under `password`. This is why that key has to be deleted before replying. |
| `Accounts.Public` | src/controllers/authController.js:18-20 | The data sent back has no `password` key. Every other column of the plain row is kept with its value. |
| `Accounts.PublicHidesOnlyPassword` | src/controllers/authController.js:47-49 | Two rows have the same public view if and only if they differ at most in their password hash. The reply leaks nothing of the hash and loses nothing else. |
| `Auth.SendVerificationMail` | src/controllers/authController.js:59-94 | An already-verified current user fails with `AlreadyVerified`, and no link is produced. Otherwise the user must still exist. A mail with subject "verification mail" goes to the current user's email. The link in it parses back to the configured authority and the verification token issued by the stored row. The state is unchanged. |
| `VerificationUrl.Build` | src/controllers/authController.js:69-77 | The link parses back to the authority and exactly the token passed in, whatever characters the token holds. The authority is `DOMAIN` when set, otherwise `localhost`, and carries `:PORT` only when `DOMAIN` is not set and `PORT` is. |
| `VerificationUrl.Authority` | src/controllers/authController.js:71-72 | The host of the link is `DOMAIN` alone when `DOMAIN` is set, whatever `PORT` is. Otherwise it is `localhost`, followed by `:PORT` exactly when `PORT` is set. |
| `QueryString.Escape` | src/controllers/authController.js:74-76 | The token is written into the query using only the unreserved characters, `%` and upper-case hex digits. So the escaped value never contains `?`, `&`, `#` or `=`. |
| `QueryString.UnescapeEscape` | src/controllers/authController.js:74-76 | The escaped token in the query decodes to the original token: the percent-encoding loses nothing. |
| `Utf8.DecodeEncode` | src/controllers/authController.js:74-76 | The UTF-8 bytes that the escaping works on decode back to the original text. |
| `Auth.VerifyVerificationMail` | src/controllers/authController.js:96-130 | The failures come in order: a missing token; a token rejected by `jwt.verify`, whose error is passed on unchanged; claims without the `verify` marker; a user who is missing; a user who is already verified. Success happens exactly for verify-marked claims naming an existing, unverified user. It flips only that user's flag to true, leaves the codes alone, and returns the access token issued by the updated, verified row. |
| `Auth.DrawnCode` | src/controllers/authController.js:147 | Every integer in the drawn range [100000, 999998] renders as a six-digit decimal code with no leading zero, and that code reads back as the same integer. |
| `Decimal.Show` | src/controllers/authController.js:147 | `toString` of a non-negative integer: at least one character, all decimal digits, with a leading `0` exactly for zero. |
| `Decimal.ParseShow` | src/controllers/authController.js:147 | Reading back the decimal rendering of a number gives that number. |
| `Decimal.ShowInjective` | src/controllers/authController.js:147 | Two numbers have the same rendering exactly when they are equal. |
| `Decimal.ShowLength` | src/controllers/authController.js:147 | A number with k+1 digits is rendered with k+1 characters. |
| `Auth.SendForgotMail` | src/controllers/authController.js:132-165 | The failures come in order: missing username, unknown user, unverified user. Success happens exactly for an existing, verified user. The users are unchanged. Only that username's code changes, and it becomes the six-digit rendering of the drawn number. The user's email receives "your code: " followed by that code. |
| `Auth.ResetPassword` | src/controllers/authController.js:167-193 | The failures come in order: a missing parameter, an unknown user, a code that differs from the pending one (including when none is pending), then a row with the new password that fails validation. Success happens exactly when all checks pass. It replaces only that user's hash with the hash of the new password, and it removes exactly that user's pending code. |
| `Lifecycle.NextKeepsInv` | src/controllers/authController.js:134-155 | Every request preserves the account invariant: each row is stored under its own username, and each pending code is a well-formed code of an existing, verified user. No row disappears and no verified flag is cleared. |
| `Lifecycle.RunKeepsInv` | src/controllers/authController.js:112-117 | The invariant holds across any sequence of requests. Over the whole sequence no row is lost and `verified` never goes from true back to false. |
| `Lifecycle.VerifiedOnlyByConfirmation` | src/controllers/authController.js:112-117 | When a request turns a user's `verified` flag on, that request was a successful confirmation carrying a verify-marked token for that user. Its reply is the access token issued by the user's row after the flag is set. |
| `Lifecycle.CodesChangeOnlyByHandshake` | src/controllers/authController.js:178-187 | Only a successful forgot-mail or reset request changes the pending codes. A code is removed only by a successful reset for that username that presented exactly that code. |
| `Lifecycle.LoginMissingBeforeLookup` | src/controllers/authController.js:32-36 | Missing credentials fail with `MissingParameters` whatever the stored users are, so they fail before any lookup. |
| `Lifecycle.RegisterThenLogin` | src/controllers/authController.js:41-49 | Suppose the hasher accepts a password against its own hash. Then logging in right after registering succeeds with the new row's public view and the access token that row issues. |
| `Lifecycle.RegisterThenWrongPassword` | src/controllers/authController.js:41-44 | After registering, a password the hasher rejects against the stored hash fails with `PasswordNotMatch`. |
| `Lifecycle.MailedLinkVerifies` | src/controllers/authController.js:104-119 | Take a current user who is unverified and still stored. Suppose the verification token issued by the stored row decodes to verify-marked claims for the user. Then the token read from the mailed link verifies that still-unverified user, and nothing else changes. |
| `Lifecycle.ConfirmTwice` | src/controllers/authController.js:112-114 | After a successful confirmation, confirming the same token again fails with `AlreadyVerified`. |
| `Lifecycle.ConfirmationTokenFromVerifiedRow` | src/controllers/authController.js:116-119 | Take a user who has just registered. Suppose the token generator gives a different token for the verified row than for the unverified one. Then a confirmation succeeds, and the token it returns differs from the one returned at sign-up, because it is issued after the flag is set. |
| `Lifecycle.AccessTokenIsNotVerification` | src/controllers/authController.js:106-108 | An access token, whose claims lack the `verify` marker, is refused with `InvalidToken`. |
| `Lifecycle.ForgotThenReset` | src/controllers/authController.js:178-187 | After a successful forgot-mail request, the mail carries the stored code. A reset with that code succeeds exactly when the new password validates. |
| `Lifecycle.ResetTwice` | src/controllers/authController.js:187 | After a successful reset, the code is gone, and replaying the same reset fails with `InvalidForgotCode`. |
| `Lifecycle.LatestCodeWins` | src/controllers/authController.js:155 | Take two forgot-mail requests with different draws. After the second, the first code fails with `InvalidForgotCode`, and the pending code is the second one. |
| `Lifecycle.FailedResetKeepsCode` | src/controllers/authController.js:178-185 | A failed reset, whether from a wrong code or a new password that does not validate, leaves the whole state, and so the pending code, unchanged. |

## Left out

- HTTP plumbing is not modelled. This covers `req`/`res`, the `token` cookie, JSON bodies, `asyncHandler`, and the status codes, including the status argument on line 144 that is passed to `next` instead of `ErrorResponse`. Errors are modelled by kind only.
- JWT signing, expiry and signature checking are not modelled. They belong to `jsonwebtoken` and to the `User` model, whose code is not part of this model. Tokens are strings produced by uninterpreted generators, and `decode` stands for `jwt.verify` under the secret.
- The time at which a token is issued is not modelled. Each generator is a function of the row alone, so two calls on an identical row give the same token. A "fresh" token is distinguished only as far as the row it is issued from differs.
- Password hashing, hash comparison and field validation belong to the `User` model, which is not part of this model. They are uninterpreted parameters. The per-call random salt of the hasher is folded into `encrypt`.
- Auth.Register: the model assumes that validation fails whenever one of the four fields is absent, because the `User` model's field definitions are not part of this model. Only the username is treated as unique.
- Sequelize persistence is represented by the `users` map. Columns the controller never touches (ids, timestamps) are not represented, so they are also missing from the plain and public views.
- Mail dispatch is not modelled. It is fire-and-forget I/O after the response and does not affect state. The mails are returned as payload so that their contents can be stated. The `from` address (`MAIL_USER`) is not modelled.
- `Math.random` and its floating-point arithmetic (line 147) are not modelled. The drawn integer is a parameter that must lie in [100000, 999998].
- The session store's concurrency and atomicity are not modelled. The model is sequential.
- Per-client sessions are not modelled. All requests share one `codes` map, as if they came from a single client session.
- Request parameters that are not strings are not modelled: JSON numbers, arrays from repeated query keys, and so on. A parameter is a string or absent.
- VerificationUrl.Build: does not model two steps of `url.format`: bracketing a hostname that contains `:`, and the `#` and `?` replacement in pathname and search. The path is constant and the escaped query never contains either character.
- `QueryString.Unescape` is a strict reference decoder, used only to state that the encoding is lossless. It is not a model of Node's lenient `querystring.unescape`.
