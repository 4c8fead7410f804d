/**
 * Sequences of requests against the controller: the account invariants
 * every handler preserves, and the handshakes that span several requests
 * (register then log in, mail a link then confirm it, request a code then
 * reset with it).
 */
module Lifecycle {
  import opened Wrappers
  import opened Accounts
  import opened Auth
  import Decimal
  import VerificationUrl

  /** One request to one of the six routes; a forgot-mail request carries the code drawn for it. */
  datatype Request =
    | Registration(draft: Draft)
    | Credentials(username: Option<string>, password: Option<string>)
    | VerificationMail(current: User)
    | VerificationLink(token: Option<string>)
    | ForgotMail(username: Option<string>, code: int)
    | Reset(username: Option<string>, newPassword: Option<string>, forgotCode: Option<string>)

  /** The random draw of a forgot-mail request lies in the range the controller draws from. */
  predicate WellDrawn(req: Request) {
    req.ForgotMail? ==> 100000 <= req.code <= 999998
  }

  function Handle(svc: Services, env: VerificationUrl.Env, st: State, req: Request): Reply
    requires WellDrawn(req)
  {
    match req
    case Registration(d) => Register(svc, st, d)
    case Credentials(u, p) => Login(svc, st, u, p)
    case VerificationMail(current) => SendVerificationMail(svc, env, st, current)
    case VerificationLink(t) => VerifyVerificationMail(svc, st, t)
    case ForgotMail(u, code) => SendForgotMail(svc, st, u, code)
    case Reset(u, p, c) => ResetPassword(svc, st, u, p, c)
  }

  /** The state after a request: a failed request changes nothing. */
  function Next(svc: Services, env: VerificationUrl.Env, st: State, req: Request): State
    requires WellDrawn(req)
  {
    match Handle(svc, env, st, req)
    case Success(reply) => reply.1
    case Failure(_) => st
  }

  function Run(svc: Services, env: VerificationUrl.Env, st: State, reqs: seq<Request>): State
    requires forall i :: 0 <= i < |reqs| ==> WellDrawn(reqs[i])
    decreases |reqs|
  {
    if reqs == [] then st else Run(svc, env, Next(svc, env, st, reqs[0]), reqs[1..])
  }

  /**
   * The account invariant: every row is stored under its own username, and
   * every pending code is a well-formed code of an existing, verified user.
   */
  predicate Inv(st: State) {
    && (forall k :: k in st.users ==> st.users[k].username == k)
    && (forall k :: k in st.codes ==> k in st.users && st.users[k].verified && IsForgotCode(st.codes[k]))
  }

  /** No row disappears and no verified row becomes unverified. */
  predicate Grows(st: State, st': State) {
    forall k :: k in st.users ==> k in st'.users && (st.users[k].verified ==> st'.users[k].verified)
  }

  lemma NextKeepsInv(svc: Services, env: VerificationUrl.Env, st: State, req: Request)
    requires WellDrawn(req) && Inv(st)
    ensures Inv(Next(svc, env, st, req))
    ensures Grows(st, Next(svc, env, st, req))
  {
  }

  /** Every run of requests from a good state keeps the invariant, keeps every row and never un-verifies one. */
  lemma {:induction false} RunKeepsInv(svc: Services, env: VerificationUrl.Env, st: State, reqs: seq<Request>)
    requires forall i :: 0 <= i < |reqs| ==> WellDrawn(reqs[i])
    requires Inv(st)
    ensures Inv(Run(svc, env, st, reqs))
    ensures Grows(st, Run(svc, env, st, reqs))
    decreases |reqs|
  {
    if reqs != [] {
      var mid := Next(svc, env, st, reqs[0]);
      NextKeepsInv(svc, env, st, reqs[0]);
      RunKeepsInv(svc, env, mid, reqs[1..]);
    }
  }

  /** Only a successful confirmation for `u` turns `u`'s verified flag on. */
  lemma VerifiedOnlyByConfirmation(svc: Services, env: VerificationUrl.Env, st: State, req: Request, u: string)
    requires WellDrawn(req)
    requires u in st.users && !st.users[u].verified
    requires u in Next(svc, env, st, req).users && Next(svc, env, st, req).users[u].verified
    ensures req.VerificationLink? && IsVerificationFor(svc, req.token, u)
    ensures Handle(svc, env, st, req)
            == Success((Verified(svc.accessToken(st.users[u].(verified := true))), Next(svc, env, st, req)))
  {
  }

  /**
   * The pending codes change only through a successful forgot-mail request
   * for a name, or a successful reset that presented exactly the pending code.
   */
  lemma CodesChangeOnlyByHandshake(svc: Services, env: VerificationUrl.Env, st: State, req: Request)
    requires WellDrawn(req)
    ensures Next(svc, env, st, req).codes != st.codes ==>
              && Handle(svc, env, st, req).Success?
              && (req.ForgotMail? || req.Reset?)
    ensures forall u :: u in st.codes && u !in Next(svc, env, st, req).codes ==>
              && req.Reset? && req.username == Some(u) && req.forgotCode == Some(st.codes[u])
              && Handle(svc, env, st, req) == Success((PasswordReset, Next(svc, env, st, req)))
  {
  }

  /** Missing credentials fail the same way whatever the stored users are: no lookup happens first. */
  lemma LoginMissingBeforeLookup(svc: Services, st1: State, st2: State, username: Option<string>, password: Option<string>)
    requires !Present(username) || !Present(password)
    ensures Login(svc, st1, username, password) == Login(svc, st2, username, password) == Failure(MissingParameters)
  {
  }

  /** Logging in right after registering, with the same password, signs the new user in. */
  lemma RegisterThenLogin(svc: Services, st: State, d: Draft)
    requires Register(svc, st, d).Success?
    requires d.password.value != "" && d.username.value != ""
    requires svc.compare(d.password.value, svc.encrypt(d.password.value))
    ensures var st1 := Register(svc, st, d).value.1;
            Login(svc, st1, d.username, d.password)
            == Success((SignedIn(Public(NewRow(svc, d)), svc.accessToken(NewRow(svc, d))), st1))
  {
  }

  /** A password the hasher does not accept for the stored hash is refused, whatever it is. */
  lemma RegisterThenWrongPassword(svc: Services, st: State, d: Draft, wrong: string)
    requires Register(svc, st, d).Success?
    requires d.username.value != "" && wrong != ""
    requires !svc.compare(wrong, svc.encrypt(d.password.value))
    ensures Login(svc, Register(svc, st, d).value.1, d.username, Some(wrong)) == Failure(PasswordNotMatch)
  {
  }

  /**
   * The link mailed by `sendVerificationMail` carries the verification token
   * unchanged; following it verifies the user and changes nothing else.
   */
  lemma MailedLinkVerifies(svc: Services, env: VerificationUrl.Env, st: State, current: User)
    requires !current.verified && current.username in st.users
    requires !st.users[current.username].verified
    requires svc.verificationToken(st.users[current.username]) != ""
    requires svc.decode(svc.verificationToken(st.users[current.username])) == Success(Claims(current.username, true))
    ensures var mail := SendVerificationMail(svc, env, st, current).value.0.mail;
            var confirmed := st.users[current.username].(verified := true);
            && VerificationUrl.Parse(mail.text).Some?
            && var token := Some(VerificationUrl.Parse(mail.text).value.1);
               VerifyVerificationMail(svc, st, token)
               == Success((Verified(svc.accessToken(confirmed)),
                           st.(users := st.users[current.username := confirmed])))
  {
  }

  /** Confirming twice: the second confirmation of the same token fails and changes nothing. */
  lemma ConfirmTwice(svc: Services, st: State, token: Option<string>)
    requires VerifyVerificationMail(svc, st, token).Success?
    ensures VerifyVerificationMail(svc, VerifyVerificationMail(svc, st, token).value.1, token)
            == Failure(AlreadyVerified)
  {
  }

  /**
   * The access token a confirmation returns is issued by the row after its
   * flag is set, so it can differ from the one the same user got at sign-up.
   */
  lemma ConfirmationTokenFromVerifiedRow(svc: Services, st: State, d: Draft, token: Option<string>)
    requires Register(svc, st, d).Success?
    requires IsVerificationFor(svc, token, d.username.value)
    requires svc.accessToken(NewRow(svc, d)) != svc.accessToken(NewRow(svc, d).(verified := true))
    ensures var st1 := Register(svc, st, d).value.1;
            && VerifyVerificationMail(svc, st1, token).Success?
            && VerifyVerificationMail(svc, st1, token).value.0.token != Register(svc, st, d).value.0.token
  {
  }

  /** An access token, whose claims lack the verify marker, is refused by the confirmation route. */
  lemma AccessTokenIsNotVerification(svc: Services, st: State, u: User)
    requires svc.accessToken(u) != ""
    requires svc.decode(svc.accessToken(u)) == Success(Claims(u.username, false))
    ensures VerifyVerificationMail(svc, st, Some(svc.accessToken(u))) == Failure(InvalidToken)
  {
  }

  /** The code mailed by `sendForgotMail` resets the password, if the new one validates. */
  lemma ForgotThenReset(svc: Services, st: State, u: string, code: int, newPassword: string)
    requires 100000 <= code <= 999998
    requires SendForgotMail(svc, st, Some(u), code).Success?
    requires newPassword != ""
    ensures var st1 := SendForgotMail(svc, st, Some(u), code).value.1;
            var mailed := SendForgotMail(svc, st, Some(u), code).value.0.mail.text;
            && mailed == "your code: " + st1.codes[u]
            && (ResetPassword(svc, st1, Some(u), Some(newPassword), Some(st1.codes[u])).Success?
                <==> svc.validate(ResetDraft(st.users[u], newPassword)))
  {
    var st1 := SendForgotMail(svc, st, Some(u), code).value.1;
    assert st1.codes[u] != "";
  }

  /** A code is single-use: replaying a successful reset fails and leaves the codes as they are. */
  lemma ResetTwice(svc: Services, st: State, u: Option<string>, p: Option<string>, c: Option<string>)
    requires ResetPassword(svc, st, u, p, c).Success?
    ensures var st1 := ResetPassword(svc, st, u, p, c).value.1;
            && u.value !in st1.codes
            && ResetPassword(svc, st1, u, p, c) == Failure(InvalidForgotCode)
  {
  }

  /** A newer forgot-mail request supersedes the older one: the first code no longer resets. */
  lemma LatestCodeWins(svc: Services, st: State, u: string, first: int, second: int, newPassword: string)
    requires 100000 <= first <= 999998 && 100000 <= second <= 999998 && first != second
    requires SendForgotMail(svc, st, Some(u), first).Success?
    requires newPassword != ""
    ensures var st1 := SendForgotMail(svc, st, Some(u), first).value.1;
            var st2 := SendForgotMail(svc, st1, Some(u), second).value.1;
            && SendForgotMail(svc, st1, Some(u), second).Success?
            && ResetPassword(svc, st2, Some(u), Some(newPassword), Some(st1.codes[u])) == Failure(InvalidForgotCode)
            && st2.codes[u] == Decimal.Show(second)
  {
    var st1 := SendForgotMail(svc, st, Some(u), first).value.1;
    var st2 := SendForgotMail(svc, st1, Some(u), second).value.1;
    Decimal.ShowInjective(first, second);
    DrawnCode(first);
    DrawnCode(second);
    assert st1.codes[u] == Decimal.Show(first);
  }

  /** A failed reset (wrong code or a new password that does not validate) keeps the pending code. */
  lemma FailedResetKeepsCode(svc: Services, env: VerificationUrl.Env, st: State, u: Option<string>,
                             p: Option<string>, c: Option<string>)
    requires ResetPassword(svc, st, u, p, c).Failure?
    ensures Next(svc, env, st, Reset(u, p, c)) == st
  {
  }
}
