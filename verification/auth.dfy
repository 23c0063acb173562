/** The authentication request handlers, each a pure transition from a request
    and a store to a response, a new store and the effects it asks for.

    Every handler is a short chain of checks with early exits; the order of the
    checks decides which response comes back when several inputs are bad, and
    every rejection leaves the store exactly as it was. */
module Auth {
  import opened Options
  import opened CredentialStore
  import opened Collaborators
  import opened Http
  import opened JsStrings

  datatype Outcome = Outcome(response: Response, store: Store, effects: seq<Effect>)

  /** `req.body` of signup. A field is `None` when the client did not send it. */
  datatype SignUpBody = SignUpBody(name: Option<string>, email: Option<string>, password: Option<string>)

  /** `req.body` of signin. */
  datatype SignInBody = SignInBody(email: Option<string>, password: Option<string>)

  /** `req.params.token` and `req.body.password` of reset-password. */
  datatype ResetRequest = ResetRequest(token: Option<string>, password: Option<string>)

  /** `req.user`: the session claims the authentication middleware decoded,
      present only on routes behind that middleware. */
  type Caller = Option<SessionClaims>

  const MinPasswordLength := 8
  /** The cookie signin stores the session token in. */
  const SessionCookie := "token"
  /** The cookie signout clears; note the capital T. */
  const SignOutCookie := "Token"

  const AllFieldsRequired := "All fields are required"
  const PasswordTooShort := "Password must be at least 8 characters long"
  const EmailInUse := "Email already in use"
  const UserCreated := "User created successfully"
  const InvalidCredentials := "Invalid email or password!"
  const LoggedIn := "User logged in successfully"
  const LoggedOut := "User logged out"
  const EmailRequired := "Email is required!"
  const UserNotFound := "User not found"
  const ResetMailSent := "Email sent for password reset"
  const ResetMailFailed := "Failed to send email"
  const TokenRequired := "Token is required!"
  const NewPasswordRequired := "New password is required!"
  const ResetTargetNotFound := "User not found or token is invalid/expired"
  const PasswordResetDone := "Password reset successfully."
  const InternalError := "Internal Server Error"
  const ProfileUploaded := "Profile Image Uploaded Successfully"
  const ProfileNotFound := "Profile not found"
  const ProfileRemoved := "Profile Image Removed Successfully"

  /** JavaScript truthiness of a string field (`!x` is false): it was sent
      and its `.length` is not zero. */
  predicate Filled(f: Option<string>): (r: bool)
    ensures r <==> f.Some? && Utf16Length(f.value) > 0
  {
    f.Some? && f.value != ""
  }

  /** A response that changes nothing. */
  function Reject(status: nat, body: Body, s: Store): Outcome {
    Outcome(Response(status, body), s, [])
  }

  /** Signup: all three fields, then the password length, then email
      uniqueness; on success a new user whose stored password is the hash. */
  function SignUp(env: Env, req: SignUpBody, s: Store): (r: Outcome)
    ensures r.effects == []
    ensures r.response.status == 201 <==>
              Filled(req.name) && Filled(req.email) && Filled(req.password)
              && Utf16Length(req.password.value) >= MinPasswordLength && req.email.value !in s.users
    ensures r.response.status != 201 ==> r.response.status == 400 && r.store == s
    ensures !(Filled(req.name) && Filled(req.email) && Filled(req.password))
            ==> r.response.body == Message(AllFieldsRequired)
    ensures Filled(req.name) && Filled(req.email) && Filled(req.password) && Utf16Length(req.password.value) < MinPasswordLength
            ==> r.response.body == Message(PasswordTooShort)
    ensures Filled(req.name) && Filled(req.email) && Filled(req.password) && Utf16Length(req.password.value) >= MinPasswordLength
            && req.email.value in s.users
            ==> r.response.body == Message(EmailInUse)
    ensures r.response.status == 201 ==>
              && r.response.body == Message(UserCreated)
              && r.store.users.Keys == s.users.Keys + {req.email.value}
              && r.store.users[req.email.value].name == req.name.value
              && r.store.users[req.email.value].email == req.email.value
              && r.store.users[req.email.value].passwordHash == env.hash(req.password.value)
              && (forall e :: e in s.users ==> r.store.users[e] == s.users[e])
              && r.store.profiles == s.profiles
  {
    if !Filled(req.name) || !Filled(req.email) || !Filled(req.password) then
      Reject(400, Message(AllFieldsRequired), s)
    else if Utf16Length(req.password.value) < MinPasswordLength then
      Reject(400, Message(PasswordTooShort), s)
    else if req.email.value in s.users then
      Reject(400, Message(EmailInUse), s)
    else
      var s' := CreateUser(s, req.name.value, req.email.value, env.hash(req.password.value));
      Outcome(Response(201, Message(UserCreated)), s', [])
  }

  /** Signin: both fields, then the user, then the password; the two
      credential failures give the same response. A successful signin puts a
      24-hour session token over the stored name and email into the session
      cookie. The store is never touched. */
  function SignIn(env: Env, req: SignInBody, s: Store): (r: Outcome)
    ensures r.store == s
    ensures r.response.status in {200, 400}
    ensures r.response.status == 200 <==>
              Filled(req.email) && Filled(req.password) && req.email.value in s.users
              && env.matches(req.password.value, s.users[req.email.value].passwordHash)
    ensures !(Filled(req.email) && Filled(req.password)) ==> r.response.body == Message(AllFieldsRequired)
    ensures Filled(req.email) && Filled(req.password) && r.response.status == 400
            ==> r.response.body == Message(InvalidCredentials)
    ensures r.response.status == 400 ==> r.effects == []
    ensures r.response.status == 200 ==>
              && r.response.body == Message(LoggedIn)
              && r.effects == [SetCookie(SessionCookie,
                                         env.signSession(SessionClaims(s.users[req.email.value].name,
                                                                       s.users[req.email.value].email),
                                                         SessionLifetime))]
  {
    if !Filled(req.email) || !Filled(req.password) then
      Reject(400, Message(AllFieldsRequired), s)
    else
      match FindUser(s, req.email.value)
      case None => Reject(400, Message(InvalidCredentials), s)
      case Some(u) =>
        if !env.matches(req.password.value, u.passwordHash) then
          Reject(400, Message(InvalidCredentials), s)
        else
          var token := env.signSession(SessionClaims(u.name, u.email), SessionLifetime);
          Outcome(Response(200, Message(LoggedIn)), s, [SetCookie(SessionCookie, token)])
  }

  /** Signout, as written: answers 200 and clears the cookie `Token`, which is
      not the cookie signin set. Reachable only through the authentication
      middleware. */
  function SignOut(caller: Caller, s: Store): (r: Outcome)
    requires caller.Some?
    ensures r.response == Response(200, Message(LoggedOut))
    ensures r.store == s
    ensures r.effects == [ClearCookie(SignOutCookie)]
    ensures !Touches(r.effects, SessionCookie)
  {
    Outcome(Response(200, Message(LoggedOut)), s, [ClearCookie(SignOutCookie)])
  }

  /** Signout as evidently intended: clears the cookie signin set. */
  function SignOutFixed(caller: Caller, s: Store): (r: Outcome)
    requires caller.Some?
    ensures r.response == Response(200, Message(LoggedOut))
    ensures r.store == s
    ensures r.effects == [ClearCookie(SessionCookie)]
  {
    Outcome(Response(200, Message(LoggedOut)), s, [ClearCookie(SessionCookie)])
  }

  /** The reset link mailed to a user: the client URL, a slash, the token.
      The client recovers the token as everything after the URL and slash. */
  function ResetLink(env: Env, email: string): (link: string)
    ensures |link| == |env.clientUrl| + 1 + |env.issueResetToken(email)|
    ensures link[..|env.clientUrl|] == env.clientUrl && link[|env.clientUrl|] == '/'
    ensures link[|env.clientUrl| + 1..] == env.issueResetToken(email)
  {
    env.clientUrl + "/" + env.issueResetToken(email)
  }

  /** Forgot-password: the email, then the user; then exactly one mail with a
      reset link to the stored address, and 200 or 500 as the mail service
      reports. The store is never touched. */
  function ForgotPassword(env: Env, email: Option<string>, s: Store): (r: Outcome)
    ensures r.store == s
    ensures !Filled(email) ==> r.response == Response(400, Error(EmailRequired)) && r.effects == []
    ensures Filled(email) && email.value !in s.users
            ==> r.response == Response(404, Error(UserNotFound)) && r.effects == []
    ensures Filled(email) && email.value in s.users ==>
              var u := s.users[email.value];
              && r.effects == [SendMail(u.email, ResetLink(env, u.email), u.name)]
              && var sent := env.sendMail(u.email, ResetLink(env, u.email), u.name);
              && (sent ==> r.response == Response(200, Message(ResetMailSent)))
              && (!sent ==> r.response == Response(500, Error(ResetMailFailed)))
  {
    if !Filled(email) then
      Reject(400, Error(EmailRequired), s)
    else
      match FindUser(s, email.value)
      case None => Reject(404, Error(UserNotFound), s)
      case Some(u) =>
        var link := ResetLink(env, u.email);
        var sent := env.sendMail(u.email, link, u.name);
        var effects := [SendMail(u.email, link, u.name)];
        if sent then Outcome(Response(200, Message(ResetMailSent)), s, effects)
        else Outcome(Response(500, Error(ResetMailFailed)), s, effects)
  }

  /** Reset-password: the token, then the new password (with no length
      check), then the token's verification (a failure surfaces as 500), then
      the user it names; on success only that user's password hash changes. */
  function ResetPassword(env: Env, req: ResetRequest, s: Store): (r: Outcome)
    ensures r.effects == []
    ensures r.response.status == 200 <==>
              Filled(req.token) && Filled(req.password)
              && env.verifyResetToken(req.token.value).Some?
              && env.verifyResetToken(req.token.value).value in s.users
    ensures r.response.status != 200 ==> r.store == s
    ensures !Filled(req.token) ==> r.response == Response(400, Error(TokenRequired))
    ensures Filled(req.token) && !Filled(req.password) ==> r.response == Response(400, Error(NewPasswordRequired))
    ensures Filled(req.token) && Filled(req.password) && env.verifyResetToken(req.token.value).None?
            ==> r.response == Response(500, Error(InternalError))
    ensures Filled(req.token) && Filled(req.password) && env.verifyResetToken(req.token.value).Some?
            && env.verifyResetToken(req.token.value).value !in s.users
            ==> r.response == Response(404, Error(ResetTargetNotFound))
    ensures r.response.status == 200 ==>
              var e := env.verifyResetToken(req.token.value).value;
              && r.response.body == Message(PasswordResetDone)
              && r.store.users.Keys == s.users.Keys
              && r.store.users[e] == s.users[e].(passwordHash := env.hash(req.password.value))
              && (forall e' :: e' in s.users && e' != e ==> r.store.users[e'] == s.users[e'])
              && r.store.profiles == s.profiles
  {
    if !Filled(req.token) then
      Reject(400, Error(TokenRequired), s)
    else if !Filled(req.password) then
      Reject(400, Error(NewPasswordRequired), s)
    else
      match env.verifyResetToken(req.token.value)
      case None => Reject(500, Error(InternalError), s)
      case Some(email) =>
        match FindUser(s, email)
        case None => Reject(404, Error(ResetTargetNotFound), s)
        case Some(u) =>
          var s' := SetPasswordHash(s, email, env.hash(req.password.value));
          Outcome(Response(200, Message(PasswordResetDone)), s', [])
  }

  /** Profile upload, behind the authentication middleware: the caller's
      user, then a new profile for that user, whether or not one exists. */
  function UploadProfilePhoto(caller: Caller, image: Option<Image>, s: Store): (r: Outcome)
    requires caller.Some?
    ensures r.effects == []
    ensures caller.value.email !in s.users ==> r.response == Response(404, Error(UserNotFound)) && r.store == s
    ensures caller.value.email in s.users ==>
              && r.response == Response(200, Message(ProfileUploaded))
              && r.store.users == s.users
              && |r.store.profiles| == |s.profiles| + 1
              && r.store.profiles[..|s.profiles|] == s.profiles
              && r.store.profiles[|s.profiles|].owner == s.users[caller.value.email].id
              && r.store.profiles[|s.profiles|].image == image
  {
    match FindUser(s, caller.value.email)
    case None => Reject(404, Error(UserNotFound), s)
    case Some(u) => Outcome(Response(200, Message(ProfileUploaded)), AddProfile(s, u.id, image), [])
  }

  /** Profile removal, behind the authentication middleware: the caller's
      user, then a profile of theirs; deletes exactly one such profile. */
  function RemoveProfilePhoto(caller: Caller, s: Store): (r: Outcome)
    requires caller.Some?
    ensures r.effects == []
    ensures caller.value.email !in s.users ==> r.response == Response(404, Error(UserNotFound)) && r.store == s
    ensures caller.value.email in s.users
            && (forall j :: 0 <= j < |s.profiles| ==> s.profiles[j].owner != s.users[caller.value.email].id)
            ==> r.response == Response(404, Error(ProfileNotFound)) && r.store == s
    ensures caller.value.email in s.users
            && (exists j :: 0 <= j < |s.profiles| && s.profiles[j].owner == s.users[caller.value.email].id)
            ==> && r.response == Response(200, Message(ProfileRemoved))
                && r.store.users == s.users
                && |r.store.profiles| == |s.profiles| - 1
                && exists j :: 0 <= j < |s.profiles| && s.profiles[j].owner == s.users[caller.value.email].id
                             && multiset(r.store.profiles) + multiset{s.profiles[j]} == multiset(s.profiles)
  {
    match FindUser(s, caller.value.email)
    case None => Reject(404, Error(UserNotFound), s)
    case Some(u) =>
      match FirstOwned(s.profiles, u.id)
      case None => Reject(404, Error(ProfileNotFound), s)
      case Some(i) => Outcome(Response(200, Message(ProfileRemoved)), DeleteProfileAt(s, i), [])
  }
}
