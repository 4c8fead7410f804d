/**
 * The six handlers of the authentication controller as pure state
 * transitions. Each checks its failure conditions in the controller's order
 * and either fails with exactly one `Error`, leaving the state as it was, or
 * returns its response payload with the next state.
 */
module Auth {
  import opened Wrappers
  import opened Accounts
  import Decimal
  import VerificationUrl

  /** The row `register` stores for a complete draft: the password hashed, not yet verified. */
  function NewRow(svc: Services, d: Draft): User
    requires Complete(d)
  {
    User(d.username.value, d.fullName.value, d.email.value, svc.encrypt(d.password.value), false)
  }

  /**
   * `register`: build and validate the row, hash the password, save it
   * (which the unique username column refuses for a taken name), issue an
   * access token and return the row without its password.
   */
  function Register(svc: Services, st: State, d: Draft): (r: Reply)
    ensures r == Failure(Invalid) <==> !(Complete(d) && svc.validate(d))
    ensures r == Failure(UsernameTaken) <==>
              Complete(d) && svc.validate(d) && d.username.value in st.users
    ensures r.Success? <==> Complete(d) && svc.validate(d) && d.username.value !in st.users
    ensures r.Success? ==> r.value.1 == st.(users := st.users[d.username.value := NewRow(svc, d)])
    ensures r.Success? ==>
              r.value.0 == SignedIn(Public(NewRow(svc, d)), svc.accessToken(NewRow(svc, d)))
  {
    if !(Complete(d) && svc.validate(d)) then Failure(Invalid)
    else if d.username.value in st.users then Failure(UsernameTaken)
    else
      var row := NewRow(svc, d);
      Success((SignedIn(Public(row), svc.accessToken(row)),
               st.(users := st.users[row.username := row])))
  }

  /**
   * `login`: missing parameters fail before any lookup, an unknown name
   * fails next, a wrong password after that; only then is a token issued.
   */
  function Login(svc: Services, st: State, username: Option<string>, password: Option<string>): (r: Reply)
    ensures r == Failure(MissingParameters) <==> !Present(username) || !Present(password)
    ensures r == Failure(UsernameNotFound) <==>
              Present(username) && Present(password) && username.value !in st.users
    ensures r == Failure(PasswordNotMatch) <==>
              && Present(username) && Present(password) && username.value in st.users
              && !svc.compare(password.value, st.users[username.value].passwordHash)
    ensures r.Success? <==>
              && Present(username) && Present(password) && username.value in st.users
              && svc.compare(password.value, st.users[username.value].passwordHash)
    ensures r.Success? ==> r.value.1 == st
    ensures r.Success? ==>
              r.value.0 == SignedIn(Public(st.users[username.value]), svc.accessToken(st.users[username.value]))
  {
    if !Present(username) || !Present(password) then Failure(MissingParameters)
    else if username.value !in st.users then Failure(UsernameNotFound)
    else
      var user := st.users[username.value];
      if !svc.compare(password.value, user.passwordHash) then Failure(PasswordNotMatch)
      else Success((SignedIn(Public(user), svc.accessToken(user)), st))
  }

  /**
   * `sendVerificationMail` for the authenticated `current` user: refused
   * when already verified; otherwise the stored row issues a verification
   * token and a link carrying it is mailed to the current user's address.
   */
  function SendVerificationMail(svc: Services, env: VerificationUrl.Env, st: State, current: User): (r: Reply)
    ensures r == Failure(AlreadyVerified) <==> current.verified
    ensures r == Failure(UserGone) <==> !current.verified && current.username !in st.users
    ensures r.Success? <==> !current.verified && current.username in st.users
    ensures r.Success? ==> r.value.1 == st
    ensures r.Success? ==>
              && r.value.0.MailQueued?
              && r.value.0.mail.to == current.email
              && r.value.0.mail.subject == "verification mail"
              && VerificationUrl.Parse(r.value.0.mail.text)
                 == Some((VerificationUrl.Authority(env), svc.verificationToken(st.users[current.username])))
  {
    if current.verified then Failure(AlreadyVerified)
    else if current.username !in st.users then Failure(UserGone)
    else
      var token := svc.verificationToken(st.users[current.username]);
      var link := VerificationUrl.Build(env, token);
      Success((MailQueued(Mail(current.email, "verification mail", link)), st))
  }

  /** The token decodes, under the process secret, to claims carrying the verify marker. */
  predicate IsVerificationFor(svc: Services, token: Option<string>, username: string) {
    Present(token) && svc.decode(token.value) == Success(Claims(username, true))
  }

  /**
   * `verifyVerificationMail`: a missing token, a token `jwt.verify`
   * rejects, or claims without the verify marker fail with the state
   * untouched; otherwise the named user, if not yet verified, becomes
   * verified and the updated row issues a new access token.
   */
  function VerifyVerificationMail(svc: Services, st: State, token: Option<string>): (r: Reply)
    ensures r == Failure(TokenNotFound) <==> !Present(token)
    ensures Present(token) && svc.decode(token.value).Failure? ==>
              r == Failure(TokenRejected(svc.decode(token.value).error))
    ensures r == Failure(InvalidToken) <==>
              Present(token) && svc.decode(token.value).Success? && !svc.decode(token.value).value.verify
    ensures r == Failure(UserGone) <==> exists u :: IsVerificationFor(svc, token, u) && u !in st.users
    ensures r == Failure(AlreadyVerified) <==>
              exists u :: IsVerificationFor(svc, token, u) && u in st.users && st.users[u].verified
    ensures r.Success? <==>
              exists u :: IsVerificationFor(svc, token, u) && u in st.users && !st.users[u].verified
    ensures forall u :: IsVerificationFor(svc, token, u) && r.Success? ==>
              && r.value.1 == st.(users := st.users[u := st.users[u].(verified := true)])
              && r.value.0 == Verified(svc.accessToken(st.users[u].(verified := true)))
  {
    if !Present(token) then Failure(TokenNotFound)
    else
      match svc.decode(token.value)
      case Failure(e) => Failure(TokenRejected(e))
      case Success(claims) =>
        if !claims.verify then Failure(InvalidToken)
        else
          assert IsVerificationFor(svc, token, claims.username);
          if claims.username !in st.users then Failure(UserGone)
          else
            var user := st.users[claims.username];
            if user.verified then Failure(AlreadyVerified)
            else
              var confirmed := user.(verified := true);
              Success((Verified(svc.accessToken(confirmed)),
                       st.(users := st.users[claims.username := confirmed])))
  }

  /** A code drawn from the range renders as a well-formed six-digit code that reads back as itself. */
  lemma DrawnCode(code: int)
    requires 100000 <= code <= 999998
    ensures IsForgotCode(Decimal.Show(code))
    ensures Decimal.Parse(Decimal.Show(code)) == code
  {
    Decimal.ShowLength(code, 5);
    Decimal.ParseShow(code);
  }

  /**
   * `sendForgotMail` with the drawn `code`: only an existing, verified user
   * gets a code; it is stored under the username, replacing any pending
   * one, and mailed to the user's address.
   */
  function SendForgotMail(svc: Services, st: State, username: Option<string>, code: int): (r: Reply)
    requires 100000 <= code <= 999998
    ensures r == Failure(MissingParameters) <==> !Present(username)
    ensures r == Failure(UsernameNotFound) <==> Present(username) && username.value !in st.users
    ensures r == Failure(EmailNotVerified) <==>
              Present(username) && username.value in st.users && !st.users[username.value].verified
    ensures r.Success? <==>
              Present(username) && username.value in st.users && st.users[username.value].verified
    ensures r.Success? ==>
              var next := r.value.1;
              && next.users == st.users
              && username.value in next.codes
              && next.codes == st.codes[username.value := next.codes[username.value]]
              && IsForgotCode(next.codes[username.value])
              && Decimal.Parse(next.codes[username.value]) == code
              && r.value.0 == MailQueued(Mail(st.users[username.value].email, "change password",
                                              "your code: " + next.codes[username.value]))
  {
    if !Present(username) then Failure(MissingParameters)
    else if username.value !in st.users then Failure(UsernameNotFound)
    else
      var user := st.users[username.value];
      if !user.verified then Failure(EmailNotVerified)
      else
        var text := Decimal.Show(code);
        DrawnCode(code);
        Success((MailQueued(Mail(user.email, "change password", "your code: " + text)),
                 st.(codes := st.codes[username.value := text])))
  }

  /**
   * The instance `resetPassword` validates: the stored row with the new
   * plaintext password in place of the hash.
   */
  function ResetDraft(row: User, newPassword: string): Draft {
    Draft(Some(row.username), Some(newPassword), Some(row.fullName), Some(row.email))
  }

  /**
   * `resetPassword`: missing parameters, an unknown user, and a code other
   * than the pending one (or none pending) fail in that order; then the new
   * password is validated; only then is it hashed and stored and the
   * pending code removed.
   */
  function ResetPassword(svc: Services, st: State, username: Option<string>,
                         newPassword: Option<string>, forgotCode: Option<string>): (r: Reply)
    ensures r == Failure(MissingParameters) <==>
              !Present(username) || !Present(newPassword) || !Present(forgotCode)
    ensures r == Failure(UsernameNotFound) <==>
              Present(username) && Present(newPassword) && Present(forgotCode) && username.value !in st.users
    ensures r == Failure(InvalidForgotCode) <==>
              && Present(username) && Present(newPassword) && Present(forgotCode)
              && username.value in st.users
              && (username.value !in st.codes || st.codes[username.value] != forgotCode.value)
    ensures r == Failure(Invalid) <==>
              && Present(username) && Present(newPassword) && Present(forgotCode)
              && username.value in st.users
              && username.value in st.codes && st.codes[username.value] == forgotCode.value
              && !svc.validate(ResetDraft(st.users[username.value], newPassword.value))
    ensures r.Success? <==>
              && Present(username) && Present(newPassword) && Present(forgotCode)
              && username.value in st.users
              && username.value in st.codes && st.codes[username.value] == forgotCode.value
              && svc.validate(ResetDraft(st.users[username.value], newPassword.value))
    ensures r.Success? ==>
              && Present(username) && Present(newPassword) && Present(forgotCode)
              && username.value in st.users
              && username.value in st.codes && st.codes[username.value] == forgotCode.value
              && r.value.1.codes == st.codes - {username.value}
              && r.value.1.users == st.users[username.value :=
                   st.users[username.value].(passwordHash := svc.encrypt(newPassword.value))]
              && r.value.0 == PasswordReset
  {
    if !Present(username) || !Present(newPassword) || !Present(forgotCode) then Failure(MissingParameters)
    else if username.value !in st.users then Failure(UsernameNotFound)
    else if username.value !in st.codes || forgotCode.value != st.codes[username.value] then
      Failure(InvalidForgotCode)
    else
      var user := st.users[username.value];
      if !svc.validate(ResetDraft(user, newPassword.value)) then Failure(Invalid)
      else
        Success((PasswordReset,
                 State(st.users[username.value := user.(passwordHash := svc.encrypt(newPassword.value))],
                       st.codes - {username.value})))
  }
}
