/** Properties that relate several handler calls: the store invariant each
    handler keeps, the flows a user goes through (signup then signin, forgot
    then reset then signin, upload then remove), and behaviours of the code
    that are easy to miss: the missing length check on reset, the 500 on an
    unverifiable reset token, duplicate profiles, and the signout cookie. */
module AuthProperties {
  import opened Options
  import opened CredentialStore
  import opened Collaborators
  import opened Http
  import opened Auth
  import opened JsStrings

  // ---------------------------------------------------------------------------
  // The store invariant

  lemma SignUpKeepsValid(env: Env, req: SignUpBody, s: Store)
    requires Valid(s)
    ensures Valid(SignUp(env, req, s).store)
  {
  }

  lemma ResetPasswordKeepsValid(env: Env, req: ResetRequest, s: Store)
    requires Valid(s)
    ensures Valid(ResetPassword(env, req, s).store)
  {
  }

  lemma UploadKeepsValid(caller: Caller, image: Option<Image>, s: Store)
    requires caller.Some? && Valid(s)
    ensures Valid(UploadProfilePhoto(caller, image, s).store)
  {
  }

  lemma RemoveKeepsValid(caller: Caller, s: Store)
    requires caller.Some? && Valid(s)
    ensures Valid(RemoveProfilePhoto(caller, s).store)
  {
    if caller.value.email in s.users {
      match FirstOwned(s.profiles, s.users[caller.value.email].id)
      case None =>
      case Some(i) => DeleteProfileAtValid(s, i);
    }
  }

  /** On a valid store the user signup creates gets an id no other user has. */
  lemma SignUpFreshId(env: Env, req: SignUpBody, s: Store)
    requires Valid(s)
    requires SignUp(env, req, s).response.status == 201
    ensures SignUp(env, req, s).store.users[req.email.value].id !in UserIds(s)
  {
  }

  // ---------------------------------------------------------------------------
  // Signup and signin

  /** An unknown email and a wrong password get the same response, store and
      effects. */
  lemma SignInFailuresIndistinguishable(env: Env, s: Store, unknown: SignInBody, wrong: SignInBody)
    requires Filled(unknown.email) && Filled(unknown.password) && unknown.email.value !in s.users
    requires Filled(wrong.email) && Filled(wrong.password) && wrong.email.value in s.users
    requires !env.matches(wrong.password.value, s.users[wrong.email.value].passwordHash)
    ensures SignIn(env, unknown, s) == SignIn(env, wrong, s)
    ensures SignIn(env, unknown, s).response == Response(400, Message(InvalidCredentials))
  {
  }

  /** Whoever signs up can sign in with the same email and password, and the
      session token carries the name and email they signed up with. */
  lemma SignUpThenSignIn(env: Env, name: string, email: string, password: string, s: Store)
    requires HashAccepts(env)
    requires SignUp(env, SignUpBody(Some(name), Some(email), Some(password)), s).response.status == 201
    ensures var s' := SignUp(env, SignUpBody(Some(name), Some(email), Some(password)), s).store;
            var r := SignIn(env, SignInBody(Some(email), Some(password)), s');
            && r.response.status == 200
            && r.effects == [SetCookie(SessionCookie, env.signSession(SessionClaims(name, email), SessionLifetime))]
  {
  }

  /** After signup, any other password is refused, as long as both are short
      enough for the hasher to read in full. */
  lemma SignUpThenWrongPassword(env: Env, name: string, email: string, password: string, other: string, s: Store)
    requires HashRejectsShort(env) && other != password
    requires |password| <= MaxFullyHashedLength && |other| <= MaxFullyHashedLength
    requires SignUp(env, SignUpBody(Some(name), Some(email), Some(password)), s).response.status == 201
    ensures var s' := SignUp(env, SignUpBody(Some(name), Some(email), Some(password)), s).store;
            SignIn(env, SignInBody(Some(email), Some(other)), s').response.status == 400
  {
  }

  // ---------------------------------------------------------------------------
  // Forgot-password then reset-password

  /** The whole reset flow: a user who asks for a reset receives a link whose
      token, sent back with a new password, resets it; afterwards the new
      password signs in, and the old one no longer does when both are short
      enough for the hasher to read in full. */
  lemma PasswordResetFlow(env: Env, email: string, oldPassword: string, newPassword: string, s: Store)
    requires HashAccepts(env) && HashRejectsShort(env) && ResetTokensSound(env) && Valid(s)
    requires email in s.users && email != ""
    requires env.matches(oldPassword, s.users[email].passwordHash)
    requires newPassword != "" && newPassword != oldPassword
    requires env.sendMail(email, ResetLink(env, email), s.users[email].name)
    ensures var forgot := ForgotPassword(env, Some(email), s);
            && forgot.response.status == 200
            && forgot.effects == [SendMail(email, env.clientUrl + "/" + env.issueResetToken(email), s.users[email].name)]
    ensures var reset := ResetPassword(env, ResetRequest(Some(env.issueResetToken(email)), Some(newPassword)), s);
            && reset.response.status == 200
            && SignIn(env, SignInBody(Some(email), Some(newPassword)), reset.store).response.status == 200
    ensures |oldPassword| <= MaxFullyHashedLength && |newPassword| <= MaxFullyHashedLength ==>
              var reset := ResetPassword(env, ResetRequest(Some(env.issueResetToken(email)), Some(newPassword)), s);
              SignIn(env, SignInBody(Some(email), Some(oldPassword)), reset.store).response.status == 400
  {
  }

  /** Reset-password accepts a new password that signup would refuse as too
      short: the length rule is checked at signup only. */
  lemma ResetSkipsLengthCheck(env: Env, token: string, password: string, name: string, s: Store)
    requires password != "" && Utf16Length(password) < MinPasswordLength && name != ""
    requires token != "" && env.verifyResetToken(token).Some?
    requires env.verifyResetToken(token).value in s.users && env.verifyResetToken(token).value != ""
    ensures ResetPassword(env, ResetRequest(Some(token), Some(password)), s).response.status == 200
    ensures ResetPassword(env, ResetRequest(Some(token), Some(password)), s).store
              .users[env.verifyResetToken(token).value].passwordHash == env.hash(password)
    ensures SignUp(env, SignUpBody(Some(name), Some(env.verifyResetToken(token).value), Some(password)), s).response
              == Response(400, Message(PasswordTooShort))
  {
  }

  /** Signup measures the password in UTF-16 code units, as JavaScript's
      `.length` does: four emoji are eight units and pass the length check. */
  lemma SignUpCountsCodeUnits(env: Env, name: string, email: string, s: Store)
    requires name != "" && email != "" && email !in s.users
    ensures SignUp(env, SignUpBody(Some(name), Some(email), Some("\U{1F600}\U{1F600}\U{1F600}\U{1F600}")), s).response.status == 201
  {
    assert |"\U{1F600}\U{1F600}\U{1F600}\U{1F600}"| == 4;
  }

  /** A token that does not verify is answered with 500, never with the 404
      reserved for an invalid or expired token. */
  lemma UnverifiedTokenIsServerError(env: Env, req: ResetRequest, s: Store)
    requires Filled(req.token) && Filled(req.password) && env.verifyResetToken(req.token.value).None?
    ensures ResetPassword(env, req, s).response.status == 500
    ensures ResetPassword(env, req, s).store == s
  {
  }

  // ---------------------------------------------------------------------------
  // Profiles

  /** Upload always adds a profile for the caller's user, so two uploads leave
      that user with two more profiles than before, and nobody else with any. */
  lemma UploadTwiceDuplicates(caller: Caller, a: Option<Image>, b: Option<Image>, s: Store, other: nat)
    requires caller.Some? && caller.value.email in s.users
    ensures var s2 := UploadProfilePhoto(caller, b, UploadProfilePhoto(caller, a, s).store).store;
            var owner := s.users[caller.value.email].id;
            CountOwned(s2.profiles, other) == CountOwned(s.profiles, other) + (if other == owner then 2 else 0)
  {
    var owner := s.users[caller.value.email].id;
    var s1 := UploadProfilePhoto(caller, a, s).store;
    CountOwnedAdd(s, owner, a, other);
    CountOwnedAdd(s1, owner, b, other);
  }

  /** A successful removal takes exactly one profile from the caller's user
      and leaves every other user's profiles alone. */
  lemma RemoveTakesOne(caller: Caller, s: Store, other: nat)
    requires caller.Some? && caller.value.email in s.users
    requires RemoveProfilePhoto(caller, s).response.status == 200
    ensures var owner := s.users[caller.value.email].id;
            CountOwned(RemoveProfilePhoto(caller, s).store.profiles, other)
              == CountOwned(s.profiles, other) - (if other == owner then 1 else 0)
  {
    var owner := s.users[caller.value.email].id;
    match FirstOwned(s.profiles, owner)
    case None =>
    case Some(i) => CountOwnedDelete(s, i, other);
  }

  /** Removal answers "Profile not found" exactly when the user has no profile. */
  lemma RemoveNotFoundIffNoProfile(caller: Caller, s: Store)
    requires caller.Some? && caller.value.email in s.users
    ensures RemoveProfilePhoto(caller, s).response == Response(404, Error(ProfileNotFound))
            <==> CountOwned(s.profiles, s.users[caller.value.email].id) == 0
  {
    CountOwnedPositive(s.profiles, s.users[caller.value.email].id);
  }

  /** For a user without a profile, upload then removal restores the profiles
      exactly. */
  lemma UploadThenRemove(caller: Caller, image: Option<Image>, s: Store)
    requires caller.Some? && caller.value.email in s.users
    requires CountOwned(s.profiles, s.users[caller.value.email].id) == 0
    ensures var s1 := UploadProfilePhoto(caller, image, s).store;
            var r := RemoveProfilePhoto(caller, s1);
            && r.response.status == 200
            && r.store.profiles == s.profiles
            && r.store.users == s.users
  {
    var owner := s.users[caller.value.email].id;
    var s1 := UploadProfilePhoto(caller, image, s).store;
    CountOwnedPositive(s.profiles, owner);
    assert FirstOwned(s1.profiles, owner) == Some(|s.profiles|) by {
      forall j | 0 <= j < |s.profiles|
        ensures s1.profiles[j].owner != owner
      {
        assert s1.profiles[j] == s1.profiles[..|s.profiles|][j];
      }
    }
    assert s1.profiles[..|s.profiles|] + s1.profiles[|s.profiles| + 1..] == s.profiles;
  }

  // ---------------------------------------------------------------------------
  // The signout cookie

  /** As written, signing out after signing in leaves the session cookie in
      the browser: signin sets `token`, signout clears `Token`. */
  lemma SignOutKeepsSessionCookie(env: Env, req: SignInBody, s: Store, jar: CookieJar)
    requires SignIn(env, req, s).response.status == 200
    ensures var signedIn := ApplyCookies(jar, SignIn(env, req, s).effects);
            var caller := Some(SessionClaims(s.users[req.email.value].name, s.users[req.email.value].email));
            var signedOut := ApplyCookies(signedIn, SignOut(caller, s).effects);
            && SessionCookie in signedIn && SessionCookie in signedOut
            && signedOut[SessionCookie] == signedIn[SessionCookie]
  {
    var signedIn := ApplyCookies(jar, SignIn(env, req, s).effects);
    var caller := Some(SessionClaims(s.users[req.email.value].name, s.users[req.email.value].email));
    SignOutLeavesSessionCookie(caller, s, signedIn);
  }

  /** Whatever the browser holds, the signout as written leaves its session
      cookie as it was: signout names only `Token`. */
  lemma SignOutLeavesSessionCookie(caller: Caller, s: Store, jar: CookieJar)
    requires caller.Some?
    ensures SessionCookie in ApplyCookies(jar, SignOut(caller, s).effects) <==> SessionCookie in jar
    ensures SessionCookie in jar ==> ApplyCookies(jar, SignOut(caller, s).effects)[SessionCookie] == jar[SessionCookie]
  {
    UntouchedCookieKept(jar, SignOut(caller, s).effects, SessionCookie);
  }

  /** With the corrected signout the session cookie is gone. */
  lemma SignOutFixedEndsSession(env: Env, req: SignInBody, s: Store, jar: CookieJar)
    requires SignIn(env, req, s).response.status == 200
    ensures var signedIn := ApplyCookies(jar, SignIn(env, req, s).effects);
            var caller := Some(SessionClaims(s.users[req.email.value].name, s.users[req.email.value].email));
            && SessionCookie in signedIn
            && SessionCookie !in ApplyCookies(signedIn, SignOutFixed(caller, s).effects)
  {
  }
}
