/** The collaborators the auth handlers call but whose internals are not part
    of this model: the password hasher, the session-token signer, the
    password-reset token issuer and verifier, the outbound mail service and
    the configured client URL. Each is a field of `Env`; since a caller may
    pass any `Env`, every property proved over it holds for every
    implementation of these collaborators. */
module Collaborators {
  import opened Options

  /** The payload of a session token. */
  datatype SessionClaims = SessionClaims(name: string, email: string)

  datatype Env = Env(
    /** `bcrypt.hash(password, 10)` */
    hash: string -> string,
    /** `bcrypt.compare(password, hash)` */
    matches: (string, string) -> bool,
    /** `jwt.sign(claims, SECRET_KEY, { expiresIn })`; the secret is part of the signer */
    signSession: (SessionClaims, string) -> string,
    /** `generatePasswordResetToken(email)` */
    issueResetToken: string -> string,
    /** `verifyPasswordResetToken(token)`: the email it was issued for, or
        `None` when it throws or yields nothing */
    verifyResetToken: string -> Option<string>,
    /** `handleEmailService(to, link, name)`: whether the mail was sent */
    sendMail: (string, string, string) -> bool,
    /** `process.env.CLIENT_URL` */
    clientUrl: string)

  /** Lifetime written into every session token. */
  const SessionLifetime := "24h"

  /** bcrypt reads only the first 72 bytes of a password. A character takes
      at most four bytes in UTF-8, so a password of at most this many
      characters is hashed in full. */
  const MaxFullyHashedLength := 18

  /** The hasher accepts the password a hash was made from. */
  ghost predicate HashAccepts(env: Env) {
    forall pw :: env.matches(pw, env.hash(pw))
  }

  /** The hasher rejects any other password, as long as both are short enough
      to be hashed in full; longer passwords that agree on their first 72
      bytes are accepted by bcrypt for each other. */
  ghost predicate HashRejectsShort(env: Env) {
    forall pw, other ::
      pw != other && |pw| <= MaxFullyHashedLength && |other| <= MaxFullyHashedLength
      ==> !env.matches(other, env.hash(pw))
  }

  /** A reset token is never empty and verifies to the email it was issued for. */
  ghost predicate ResetTokensSound(env: Env) {
    forall email :: env.issueResetToken(email) != "" && env.verifyResetToken(env.issueResetToken(email)) == Some(email)
  }
}
