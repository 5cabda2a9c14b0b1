/**
 * The token helpers of the backend: minting access tokens and refresh tokens,
 * and checking an access token. Time is a parameter (whole seconds since the
 * epoch, as `jsonwebtoken` uses); the two secrets come from the configuration.
 */
module Jwt {
  import opened Wrappers
  import opened TokenFormat

  /** `expiresIn: '1hr'`, in seconds. */
  const AccessLifetime: nat := 60 * 60

  /** `expiresIn: '7d'`, in seconds. */
  const RefreshLifetime: nat := 60 * 60 * 24 * 7

  /** The signing secrets, `JWT_SECRET` and `REFRESH_TOKEN_SECRET`, fixed when the process starts. */
  datatype Config = Config(accessSecret: string, refreshSecret: string)

  /**
   * Both secrets are set and non-empty. `jsonwebtoken` refuses to sign with an
   * empty or unset secret and fails every verification with one; the code does
   * not check it beforehand.
   */
  predicate SecretsSet(cfg: Config)
  {
    cfg.accessSecret != "" && cfg.refreshSecret != ""
  }

  /** What a deployment is expected to provide: two different secrets. The code does not check it. */
  predicate DistinctSecrets(cfg: Config)
  {
    cfg.accessSecret != cfg.refreshSecret
  }

  /**
   * `jwt.sign(claims, secret, { expiresIn: lifetime })` at time `now`: `iat` is
   * now, `exp` is now + lifetime. With an empty or unset secret `jsonwebtoken`
   * throws instead ("secretOrPrivateKey must have a value"); callers branch on
   * that before signing.
   */
  function Sign(claims: Claims, secret: string, lifetime: nat, now: nat): (r: string)
    requires secret != ""
    ensures Decode(r) == Some(Token(Payload(claims, now, now + lifetime), secret))
  {
    var t := Token(Payload(claims, now, now + lifetime), secret);
    DecodeEncode(t);
    Encode(t)
  }

  /**
   * `jwt.verify(token, secret)` at time `now`: the decoded payload, or None
   * where `jsonwebtoken` throws (an empty or unset secret, a malformed token,
   * a signature made with another secret, or `now >= exp`).
   */
  function Verify(token: string, secret: string, now: nat): (r: Option<Payload>)
    ensures r.Some? ==> secret != "" && Encode(Token(r.value, secret)) == token && now < r.value.exp
  {
    if secret == "" then None
    else match Decode(token)
    case None => None
    case Some(t) => if t.signedWith == secret && now < t.payload.exp then Some(t.payload) else None
  }

  /**
   * `generateToken(user)`: an access token whose claims are exactly the `id`,
   * `username` and `email` read from `user` (a field the object lacks is
   * `undefined` and JSON leaves it out), signed with the access secret, valid
   * for one hour.
   */
  function GenerateToken(user: Claims, cfg: Config, now: nat): (r: string)
    requires cfg.accessSecret != ""
    ensures Decode(r) == Some(Token(Payload(Claims(user.id, user.username, user.email), now, now + AccessLifetime), cfg.accessSecret))
  {
    Sign(Claims(user.id, user.username, user.email), cfg.accessSecret, AccessLifetime, now)
  }

  /** `generateRefreshToken(user)`: a token carrying only `user.id`, signed with the refresh secret, valid for seven days. */
  function GenerateRefreshToken(user: Claims, cfg: Config, now: nat): (r: string)
    requires cfg.refreshSecret != ""
    ensures Decode(r) == Some(Token(Payload(Claims(user.id, None, None), now, now + RefreshLifetime), cfg.refreshSecret))
  {
    Sign(Claims(user.id, None, None), cfg.refreshSecret, RefreshLifetime, now)
  }

  /** `verifyToken(token)`: verification with the access secret; every failure is None, nothing is thrown. */
  function VerifyToken(token: string, cfg: Config, now: nat): Option<Payload>
  {
    Verify(token, cfg.accessSecret, now)
  }

  /** Verification succeeds with the signing secret before expiry, and gives back the signed payload. */
  lemma VerifySigned(claims: Claims, secret: string, lifetime: nat, issued: nat, now: nat)
    requires secret != ""
    ensures Verify(Sign(claims, secret, lifetime, issued), secret, now)
         == if now < issued + lifetime then Some(Payload(claims, issued, issued + lifetime)) else None
  {
  }

  /** Any other secret fails, whatever the time. */
  lemma VerifyOtherSecret(claims: Claims, secret: string, other: string, lifetime: nat, issued: nat, now: nat)
    requires secret != "" && other != secret
    ensures Verify(Sign(claims, secret, lifetime, issued), other, now) == None
  {
  }

  /** Round trip: an access token verifies, before its hour is up, to the user's id, username and email. */
  lemma AccessTokenRoundTrip(user: Claims, cfg: Config, issued: nat, now: nat)
    requires cfg.accessSecret != ""
    ensures VerifyToken(GenerateToken(user, cfg, issued), cfg, now)
         == if now < issued + AccessLifetime then Some(Payload(user, issued, issued + AccessLifetime)) else None
  {
    VerifySigned(user, cfg.accessSecret, AccessLifetime, issued, now);
  }

  /** A refresh token verifies with the refresh secret, for seven days, to the user's id alone. */
  lemma RefreshTokenRoundTrip(user: Claims, cfg: Config, issued: nat, now: nat)
    requires cfg.refreshSecret != ""
    ensures Verify(GenerateRefreshToken(user, cfg, issued), cfg.refreshSecret, now)
         == if now < issued + RefreshLifetime then Some(Payload(Claims(user.id, None, None), issued, issued + RefreshLifetime)) else None
  {
    VerifySigned(Claims(user.id, None, None), cfg.refreshSecret, RefreshLifetime, issued, now);
  }

  /** With distinct secrets, a refresh token is never accepted as an access token, nor the other way round. */
  lemma TokenKindsDoNotCross(user: Claims, cfg: Config, issued: nat, now: nat)
    requires SecretsSet(cfg) && DistinctSecrets(cfg)
    ensures VerifyToken(GenerateRefreshToken(user, cfg, issued), cfg, now) == None
    ensures Verify(GenerateToken(user, cfg, issued), cfg.refreshSecret, now) == None
  {
    VerifyOtherSecret(Claims(user.id, None, None), cfg.refreshSecret, cfg.accessSecret, RefreshLifetime, issued, now);
    VerifyOtherSecret(user, cfg.accessSecret, cfg.refreshSecret, AccessLifetime, issued, now);
  }

  /**
   * Two refresh tokens are the same string exactly when they name the same id
   * and were minted in the same second: `jsonwebtoken` adds no nonce, so
   * freshness comes from `iat` alone.
   */
  lemma RefreshTokenIdentity(u1: Claims, u2: Claims, cfg: Config, t1: nat, t2: nat)
    requires cfg.refreshSecret != ""
    ensures GenerateRefreshToken(u1, cfg, t1) == GenerateRefreshToken(u2, cfg, t2) <==> u1.id == u2.id && t1 == t2
  {
    var a, b := GenerateRefreshToken(u1, cfg, t1), GenerateRefreshToken(u2, cfg, t2);
    if a == b {
      assert Decode(a) == Decode(b);
    }
  }
}
