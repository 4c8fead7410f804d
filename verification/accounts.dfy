/**
 * The state the authentication controller reads and writes, and the
 * collaborators it calls but whose code is not part of this model: the
 * `User` model's validators, password hashing and token signing, each
 * taken as an uninterpreted function.
 */
module Accounts {
  import opened Wrappers
  import Decimal

  /** A row of the users table, as far as the controller reads or writes it. */
  datatype User = User(username: string, fullName: string, email: string, passwordHash: string, verified: bool)

  /**
   * The users table keyed by username, and the session's pending reset
   * codes keyed by username.
   */
  datatype State = State(users: map<string, User>, codes: map<string, string>)

  /** JavaScript truthiness of a string request parameter: supplied and non-empty. */
  predicate Present(p: Option<string>) {
    p.Some? && p.value != ""
  }

  /** The fields a `User` instance is built from before validation. */
  datatype Draft = Draft(username: Option<string>, password: Option<string>,
                         fullName: Option<string>, email: Option<string>)

  /** Every field of the draft is supplied. */
  predicate Complete(d: Draft) {
    d.username.Some? && d.password.Some? && d.fullName.Some? && d.email.Some?
  }

  /** The decoded payload of a signed token; `verify` is the purpose marker. */
  datatype Claims = Claims(username: string, verify: bool)

  /** An error raised by token verification (bad signature, expiry, malformed input). */
  datatype JwtError = JwtError(name: string, message: string)

  /**
   * The collaborators: the `User` model's validation, `encryptPassword`,
   * `comparePassword(plain, hash)`, the row methods `generateAccessToken`
   * and `generateVerificationToken` (each a function of the row it is
   * called on), and `jwt.verify` under the process secret.
   */
  datatype Services = Services(
    validate: Draft -> bool,
    encrypt: string -> string,
    compare: (string, string) -> bool,
    accessToken: User -> string,
    verificationToken: User -> string,
    decode: string -> Result<Claims, JwtError>)

  /** The typed failures the handlers pass to the error middleware. */
  datatype Error =
    | MissingParameters        // 'missing parameters'
    | Invalid                  // a field failed the model's validation
    | UsernameTaken            // the unique username constraint at save
    | UsernameNotFound         // "username doesn't exist"
    | PasswordNotMatch         // 'password not match'
    | AlreadyVerified          // 'already verified'
    | TokenNotFound            // 'token not found'
    | TokenRejected(cause: JwtError)  // jwt.verify's own error, passed on unchanged
    | InvalidToken             // 'invalid token': the claims lack the verify marker
    | EmailNotVerified         // "email hasn't been verified"
    | InvalidForgotCode        // 'invalid forgot code'
    | UserGone                 // the looked-up row is missing where the code dereferences it

  /** A message handed to the mail transporter. */
  datatype Mail = Mail(to: string, subject: string, text: string)

  /** A value of a plain user object. */
  datatype Field = Text(text: string) | Flag(flag: bool)

  /** `user.get({ plain: true })`: every column by name, the hash under `password`. */
  function Plain(u: User): (p: map<string, Field>)
    ensures p.Keys == {"username", "fullName", "email", "password", "verified"}
    ensures p["password"] == Text(u.passwordHash)
  {
    map["username" := Text(u.username), "fullName" := Text(u.fullName), "email" := Text(u.email),
        "password" := Text(u.passwordHash), "verified" := Flag(u.verified)]
  }

  /** The plain object with its `password` key deleted, as sent back to clients. */
  function Public(u: User): (data: map<string, Field>)
    ensures "password" !in data
    ensures data.Keys == Plain(u).Keys - {"password"}
    ensures forall k :: k in data ==> data[k] == Plain(u)[k]
  {
    Plain(u) - {"password"}
  }

  /** Two rows that differ at most in their password hash. */
  predicate SameExceptPassword(a: User, b: User) {
    a.(passwordHash := "") == b.(passwordHash := "")
  }

  /** The public view hides exactly the password: it tells rows apart iff they differ elsewhere. */
  lemma PublicHidesOnlyPassword(a: User, b: User)
    ensures Public(a) == Public(b) <==> SameExceptPassword(a, b)
  {
    if Public(a) == Public(b) {
      assert Public(a)["username"] == Public(b)["username"];
      assert Public(a)["fullName"] == Public(b)["fullName"];
      assert Public(a)["email"] == Public(b)["email"];
      assert Public(a)["verified"] == Public(b)["verified"];
    }
  }

  /** What a reply carries on success. */
  datatype Body =
    | SignedIn(data: map<string, Field>, token: string)  // register, login: user data and the cookie token
    | MailQueued(mail: Mail)                             // 'send mail success' and the mail handed over
    | Verified(token: string)                            // the fresh access token after confirmation
    | PasswordReset                                      // 'reset password success'

  /** A handler's outcome: one success payload with the next state, or one typed failure. */
  type Reply = Result<(Body, State), Error>

  /** A stored reset code: six decimal digits, no leading zero, in the drawn range. */
  predicate IsForgotCode(s: string) {
    && |s| == 6
    && Decimal.AllDigits(s)
    && s[0] != '0'
    && 100000 <= Decimal.Parse(s) <= 999998
  }
}
