# Authentication handlers of the Vision blogging server, in Dafny

This project models the authentication request handlers of the blogging
server: signup, signin, signout, forgot-password, reset-password, profile
photo upload and profile photo removal. Each handler becomes a pure function
from a request and a credential store to an `Outcome`. An outcome holds the
HTTP status with its JSON body (`{ message }` or `{ error }`), the new store,
and the effects outside the store: cookies set or cleared, and mails sent.

- `options.dfy` (`Options`): the `Option` type.
- `jsstring.dfy` (`JsStrings`): JavaScript's string length, in UTF-16 code
  units.
- `store.dfy` (`CredentialStore`): users keyed by email, profiles in store
  order, a fresh-id counter, the store operations the handlers use, the store
  invariant `Valid`, and per-user profile counts.
- `env.dfy` (`Collaborators`): the password hasher, the session-token signer,
  the reset-token issuer and verifier, the mail service and the client URL.
  These are function-valued fields of `Env`, so they stay uninterpreted: every
  result holds for every implementation. `HashAccepts`, `HashRejectsShort`
  and `ResetTokensSound` state what the end-to-end flows assume of them.
  bcrypt reads only the first 72 bytes of a password, so rejection of a
  different password is assumed only for passwords of at most 18 characters.
- `http.dfy` (`Http`): bodies, responses, effects, and a browser cookie jar.
- `auth.dfy` (`Auth`): the seven handlers, plus the corrected signout.
- `properties.dfy` (`AuthProperties`): properties that span several calls.

The routes for signout, profile upload and profile removal sit behind the
authentication middleware (`Server/Views/UserRouter.js:21`, `:24-30`). Those
handlers therefore require that a caller (`req.user`) is present.

Some behaviours of the code are easy to miss, and the model keeps them:

- A reset token that fails verification (auth.js:164) ends in the `catch` at
  :182-184 and gives 500 "Internal Server Error". This happens even though
  the 404 message at :171 names an invalid or expired token.
- Reset-password checks only that a new password is present (:159). The
  minimum length of 8 is checked at signup only (:21).
- Upload (:197-203) saves a new profile without looking for an existing one,
  so a user can own several profiles.
- Signin sets cookie `token` (:80) and signout clears cookie `Token` (:96).

## Model

| member | source | states |
|---|---|---|
| Auth.SignUp | Server/Controllers/auth.js:11-46 | Checks run in a fixed order: all three fields, then a length of at least 8 UTF-16 code units (JavaScript's `.length`), then email unused. Each rejection is 400 with its own message, leaves the store unchanged and has no effects. 201 happens exactly when all checks pass. Then exactly one user is added under the given email, with the given name and `hash(password)` as its password. All earlier users are unchanged and profiles are untouched. |
| Auth.SignIn | Server/Controllers/auth.js:47-92 | Never changes the store. 400 "All fields are required" if either field is missing. Otherwise 400 "Invalid email or password!" for both an unknown email and a wrong password. 200 exactly when the user exists and the password matches its hash. The only effect of a 200 is setting cookie `token` to a token signed over the stored name and email with lifetime "24h". |
| Auth.SignOut | Server/Controllers/auth.js:94-107 | Requires an authenticated caller. Always returns 200 "User logged out" and leaves the store unchanged. Its only effect clears cookie `Token`, so it never touches the `token` cookie that signin sets. |
| Auth.ForgotPassword | Server/Controllers/auth.js:109-147 | Never changes the store. 400 if the email is missing, then 404 "User not found" for an unknown email, in both cases with no effects. Otherwise there is exactly one mail, to the stored address, with link `CLIENT_URL + "/" + token` and the stored name. The response is 200 if the mail service reports success and 500 if not. |
| Auth.ResetPassword | Server/Controllers/auth.js:149-186 | Checks a missing token (400) before a missing password (400). A token that does not verify gives 500. A verified email with no user gives 404. 200 happens exactly when the verified email names a user. Then only that user's password hash changes, to `hash(newPassword)`, with no length check. All other users and all profiles stay the same. Every rejection leaves the store unchanged. |
| Auth.UploadProfilePhoto | Server/Controllers/auth.js:188-212 | Requires an authenticated caller. An unknown caller email gives 404 and an unchanged store. Otherwise the response is 200 and users are unchanged. Every existing profile is kept in place, and exactly one profile is appended, owned by the caller's user and carrying the given image. |
| Auth.RemoveProfilePhoto | Server/Controllers/auth.js:213-237 | Requires an authenticated caller. An unknown user gives 404 "User not found", and a user without any profile gives 404 "Profile not found". Both leave the store unchanged. Otherwise the response is 200, users are unchanged, and the profiles equal the old ones minus one profile owned by the caller's user, as multisets. |
| Auth.Filled | Server/Controllers/auth.js:16 | A request field passes the `!x` test exactly when it was sent and its JavaScript length is not zero. |
| Auth.ResetLink | Server/Controllers/auth.js:126 | The reset link is the client URL, a slash, then the token, and the token can be read back as everything after the URL and slash. |
| JsStrings.Utf16Length | Server/Controllers/auth.js:21 | JavaScript's `.length` lies between the number of characters and twice that. It equals the number of characters exactly when no character lies above U+FFFF. |
| Auth.SignOutFixed | Server/Controllers/auth.js:94-102 | The corrected signout: 200, store unchanged, clears the session cookie `token`. |
| CredentialStore.FindUser | Server/Controllers/auth.js:28 | On a valid store, the lookup finds a user exactly when some stored user's email field equals the given email, and the user found has that email. |
| CredentialStore.FirstOwned | Server/Controllers/auth.js:224 | The profile lookup returns the position of the first profile owned by the user. If there is none, it returns nothing. |
| CredentialStore.CreateUser | Server/Controllers/auth.js:37-38 | Saving a new user adds exactly the new key, keeps every existing user, leaves profiles alone and advances the id counter. |
| CredentialStore.SetPasswordHash | Server/Controllers/auth.js:178-179 | Saving a changed password changes only that user's hash field. Keys, other users and profiles stay the same. |
| CredentialStore.AddProfile | Server/Controllers/auth.js:197-203 | Saving a new profile keeps all earlier profiles as a prefix and appends one with a fresh id. |
| CredentialStore.DeleteProfileAt | Server/Controllers/auth.js:230 | Deleting one profile removes exactly that profile from the multiset of profiles and keeps the users. |
| AuthProperties.SignUpKeepsValid | Server/Controllers/auth.js:27-38 | Signup keeps the store invariant: emails are keys, ids are unique, and every profile has an owner. |
| AuthProperties.SignUpFreshId | Server/Controllers/auth.js:37-38 | On a valid store, the user signup creates gets an id that no existing user has. |
| AuthProperties.ResetPasswordKeepsValid | Server/Controllers/auth.js:167-179 | Reset-password keeps the store invariant. |
| AuthProperties.UploadKeepsValid | Server/Controllers/auth.js:191-203 | Upload keeps the store invariant, and the new profile's owner is a stored user. |
| AuthProperties.RemoveKeepsValid | Server/Controllers/auth.js:218-230 | Removal keeps the store invariant. |
| AuthProperties.SignInFailuresIndistinguishable | Server/Controllers/auth.js:57-66 | An unknown email and a wrong password for a known email produce identical outcomes: 400 "Invalid email or password!". |
| AuthProperties.SignUpThenSignIn | Server/Controllers/auth.js:34-87 | Given a hasher that accepts the password a hash was made from, after a successful signup the same email and password sign in with 200. The session cookie then carries the signed-up name and email. |
| AuthProperties.SignUpThenWrongPassword | Server/Controllers/auth.js:34-66 | Given a hasher that rejects other passwords of at most 18 characters, after signup any such other password is refused with 400. |
| AuthProperties.PasswordResetFlow | Server/Controllers/auth.js:119-181 | This lemma assumes the hasher accepts its own hashes, rejects other short passwords, reset tokens verify to their email, and the mail service works. Forgot-password then answers 200 and sends one mail carrying the token. Resetting with that token answers 200. Afterwards the new password signs in. If both passwords have at most 18 characters, the old one is refused. |
| AuthProperties.ResetSkipsLengthCheck | Server/Controllers/auth.js:21-25 | A non-empty password shorter than 8 UTF-16 code units is accepted by reset-password, which stores its hash. Signup refuses the same password with "Password must be at least 8 characters long". |
| AuthProperties.SignUpCountsCodeUnits | Server/Controllers/auth.js:21-41 | A password of four emoji, four characters but eight UTF-16 code units, passes the length check, and signup answers 201. |
| AuthProperties.UnverifiedTokenIsServerError | Server/Controllers/auth.js:164-184 | A token that fails verification gives 500, never 404, and leaves the store unchanged. |
| AuthProperties.UploadTwiceDuplicates | Server/Controllers/auth.js:196-203 | Two uploads give the caller's user two more profiles and every other user none. No check stops a second profile. |
| AuthProperties.RemoveTakesOne | Server/Controllers/auth.js:224-230 | A successful removal lowers the caller's profile count by exactly one and leaves every other user's count unchanged. |
| AuthProperties.RemoveNotFoundIffNoProfile | Server/Controllers/auth.js:224-227 | For a known user, removal answers 404 "Profile not found" if and only if the user owns no profile. |
| AuthProperties.UploadThenRemove | Server/Controllers/auth.js:188-237 | For a user with no profile, upload followed by removal succeeds and restores the original users and profiles exactly. |
| AuthProperties.SignOutKeepsSessionCookie | Server/Controllers/auth.js:80-96 | In a browser that applies the effects, signin followed by the signout as written leaves cookie `token` in place with the same value. |
| AuthProperties.SignOutLeavesSessionCookie | Server/Controllers/auth.js:96-102 | Whatever cookies the browser holds, the signout as written leaves the presence and value of cookie `token` unchanged. |
| AuthProperties.SignOutFixedEndsSession | Server/Controllers/auth.js:80-96 | With the corrected signout, the `token` cookie that signin set is gone. |

## Left out

- Generic 500 responses from the `catch` blocks, raised when the document
  store, bcrypt or the mail service throws. The store and hasher are total
  here; only the reset-token failure (500) is modelled as an error path.
- Request body values that are not strings. `!x` is modelled as "absent or
  length zero", and `password.length` counts UTF-16 code units. A JSON body
  can also carry a lone surrogate, which a Dafny string cannot hold.
- bcrypt's 72-byte truncation is represented only through
  `HashRejectsShort`. Nothing is proved about two long passwords that share
  their first 72 bytes, which bcrypt accepts for each other.
- `verifyPasswordResetToken` returning an object without an `email`: it
  becomes the same `None` as a throw. `Server/utils/ResetToken.js` is not
  part of this model.
- bcrypt (salt, cost factor 10), JWT signing, the secret key and the expiry
  check. These are opaque functions of `Env`; no cryptography or clock is
  modelled.
- The authentication middleware itself: only its effect, a present
  `req.user`, is kept as a precondition. `Server/Middleware/VerifyUser.js` is
  not part of this model.
- The mail service, multer, the image payload, and the profile schema's
  default image. `Server/Models/Userprofile.js` is not part of this model, so
  the image is stored as given.
- Auth.SignOut: the `catch` at auth.js:103-106, which answers 500 "Server
  error during logout", is not modelled. Like the other `catch` blocks it
  is reached only when framework code throws.
- Timing: signin runs `bcrypt.compare` only for a known email (auth.js:63)
  and returns early for an unknown one (:59), so response time can tell the
  two apart. No clock is modelled; AuthProperties.SignInFailuresIndistinguishable
  speaks only of response, store and effects.
- Cookie attributes (`httpOnly`, `sameSite`, `secure`) and console logging.
- Concurrency: each handler is one atomic step, so the check-then-insert race
  on email uniqueness is not represented.
- Express wiring (`Server/Views/UserRouter.js`, `Server/app.js`) and the
  client components (`Client/src/Components/Blog.jsx`, `Carousel.jsx`).
- Auth.RemoveProfilePhoto: the contract says that one profile of the caller's
  user is deleted, not which one. The body deletes the first in insertion
  order. `Profile.findOne` has no sort, so the program does not guarantee
  which profile it finds.

## Findings

| source | as written | input that shows it | evidently intended | confidence | as-written member | corrected member |
|---|---|---|---|---|---|---|
| Server/Controllers/auth.js:96 | signout clears cookie `Token`; signin sets cookie `token` (line 80), and cookie names are case-sensitive | a successful signin followed by signout: the browser still holds `token` with the session token | signout clears `token`, ending the session | high; not executed | AuthProperties.SignOutKeepsSessionCookie | AuthProperties.SignOutFixedEndsSession |
