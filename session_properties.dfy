/**
 * What the session protocol promises, stated over the specifications of the
 * three handlers: each handler's outcome branch by branch, and what follows
 * when requests are chained (register then login, login then refresh,
 * rotation, a second login).
 */
module SessionProperties {
  import opened Wrappers
  import opened TokenFormat
  import opened Jwt
  import opened Http
  import opened AuthController

  /** The cookie the outcome sets, if any, as its token string. */
  function CookieToken(out: Outcome): Option<string>
  {
    match out.cookie
    case None => None
    case Some(c) => Some(c.value)
  }

  /**
   * `registerUser`: a taken username is a 400 that changes nothing; otherwise
   * exactly one row is appended, holding whatever `hash(password, 10, salt)`
   * returns, and a later lookup of the username finds it. The reply is then
   * 201 with the password-free user and an access token for it, or 500 when
   * the access secret is unset (the row stays). The registry is never written
   * and no cookie is set.
   */
  lemma {:induction false} RegisterOutcome(s: State, u: string, e: string, p: string, h: Hasher, salt: nat, cfg: Config, now: nat)
    ensures var r := RegisterStep(s, u, e, p, h, salt, cfg, now);
      && r.0.registry == s.registry
      && r.1.cookie == None
      && (r.1.status == 400 <==> FindByUsername(s.rows, u).Some?)
      && (r.1.status == 400 ==> r.0 == s && r.1.reply == ErrorReply(DuplicateUsernameMessage))
      && (r.1.status != 400 ==>
            var record := UserRecord(s.nextId, u, e, h.hash(p, SaltRounds, salt));
            && r.1.status == (if cfg.accessSecret == "" then 500 else 201)
            && r.0.rows == s.rows + [record]
            && r.0.nextId == s.nextId + 1
            && FindByUsername(r.0.rows, u) == Some(record))
      && (r.1.status == 500 ==> r.1.reply == ErrorReply(RegisterServerErrorMessage))
      && (r.1.status == 201 ==>
            && cfg.accessSecret != ""
            && r.1.reply.Registered?
            && r.1.reply.user == SafeUser(s.nextId, u, e)
            && VerifyToken(r.1.reply.token, cfg, now) == Some(Payload(Claims(s.nextId, Some(u), Some(e)), now, now + AccessLifetime)))
  {
    if FindByUsername(s.rows, u).None? {
      var record := UserRecord(s.nextId, u, e, h.hash(p, SaltRounds, salt));
      FindAfterInsert(s.rows, record, u);
      if cfg.accessSecret != "" {
        AccessTokenRoundTrip(UserClaims(Strip(record)), cfg, now, now);
      }
    }
  }

  /**
   * The plaintext is never stored, provided the hasher does not hand the
   * password back: bcrypt's one-wayness is that premise, not a fact proved here.
   */
  lemma RegisterStoresNoPlaintext(s: State, u: string, e: string, p: string, h: Hasher, salt: nat, cfg: Config, now: nat)
    requires h.hash(p, SaltRounds, salt) != p
    ensures var r := RegisterStep(s, u, e, p, h, salt, cfg, now);
      forall row :: row in r.0.rows && row !in s.rows ==> row.password != p
  {
  }

  /**
   * `loginUser`: an unknown username and a failed password check are both 404,
   * with their own messages, and change nothing. Past both checks, an unset
   * secret is a 500 that changes nothing. A success never touches the users
   * table; it stores the new refresh token in the user's slot with a
   * time to live equal to the token's seven-day lifetime, sets the cookie to
   * that same token, and answers with the password-free user and an access
   * token for them.
   */
  lemma {:induction false} LoginOutcome(s: State, u: string, p: string, h: Hasher, cfg: Config, now: nat)
    ensures var r := LoginStep(s, u, p, h, cfg, now);
      var found := FindByUsername(s.rows, u);
      && r.0.rows == s.rows && r.0.nextId == s.nextId
      && (r.1.status == 404 <==> found.None? || !h.compare(p, found.value.password))
      && (r.1.status == 404 ==>
            && r.0 == s && r.1.cookie == None
            && r.1.reply == ErrorReply(if found.None? then UserNotFoundMessage else WrongPasswordMessage))
      && (r.1.status != 404 ==> r.1.status == (if SecretsSet(cfg) then 200 else 500))
      && (r.1.status == 500 ==> r.0 == s && r.1.cookie == None && r.1.reply == ErrorReply(LoginServerErrorMessage))
      && (r.1.status == 200 ==>
            var user := found.value;
            && SecretsSet(cfg)
            && CookieToken(r.1).Some?
            && r.1.cookie == Some(RefreshCookie(CookieToken(r.1).value))
            && r.0.registry == s.registry[RefreshKey(user.id) := Entry(CookieToken(r.1).value, RefreshLifetime)]
            && Verify(CookieToken(r.1).value, cfg.refreshSecret, now) == Some(Payload(Claims(user.id, None, None), now, now + RefreshLifetime))
            && r.1.reply.LoggedIn?
            && r.1.reply.safeUser == SafeUser(user.id, user.username, user.email)
            && VerifyToken(r.1.reply.token, cfg, now) == Some(Payload(Claims(user.id, Some(user.username), Some(user.email)), now, now + AccessLifetime)))
  {
    var found := FindByUsername(s.rows, u);
    if found.Some? && h.compare(p, found.value.password) && SecretsSet(cfg) {
      var claims := UserClaims(Strip(found.value));
      RefreshTokenRoundTrip(claims, cfg, now, now);
      AccessTokenRoundTrip(claims, cfg, now, now);
    }
  }

  /** A login only ever writes the slot of the user who logged in: every other user's session is as it was. */
  lemma LoginLeavesOtherSessions(s: State, u: string, p: string, h: Hasher, cfg: Config, now: nat, other: nat)
    requires FindByUsername(s.rows, u).Some? && FindByUsername(s.rows, u).value.id != other
    ensures var s' := LoginStep(s, u, p, h, cfg, now).0;
      && (RefreshKey(other) in s'.registry <==> RefreshKey(other) in s.registry)
      && (RefreshKey(other) in s.registry ==> s'.registry[RefreshKey(other)] == s.registry[RefreshKey(other)])
  {
    RefreshKeyInjective(FindByUsername(s.rows, u).value.id, other);
  }

  /** The cookie's token verifies with the refresh secret and matches the slot of the id it names. */
  predicate SessionMatches(s: State, token: string, cfg: Config, now: nat)
  {
    match Verify(token, cfg.refreshSecret, now)
    case None => false
    case Some(d) => RefreshKey(d.claims.id) in s.registry && s.registry[RefreshKey(d.claims.id)].value == token
  }

  /**
   * `refresh`: never touches the users table. A missing or empty cookie is
   * 401; a cookie that does not verify, or that is not the token in its slot,
   * is 403; a matching cookie with the access secret unset is 500; all of
   * these change nothing and set no cookie. Otherwise the reply is 200,
   * the slot is overwritten with a new seven-day refresh token for the same
   * id, and the cookie is set to that token.
   */
  lemma {:induction false} RefreshOutcome(s: State, c: Option<string>, cfg: Config, now: nat)
    ensures var r := RefreshStep(s, c, cfg, now);
      && r.0.rows == s.rows && r.0.nextId == s.nextId
      && (r.1.status == 401 <==> CookieMissing(c))
      && (r.1.status == 403 <==> !CookieMissing(c) && !SessionMatches(s, c.value, cfg, now))
      && (r.1.status == 500 <==> !CookieMissing(c) && SessionMatches(s, c.value, cfg, now) && cfg.accessSecret == "")
      && (r.1.status == 200 <==> !CookieMissing(c) && SessionMatches(s, c.value, cfg, now) && cfg.accessSecret != "")
      && (r.1.status != 200 ==> r.0 == s && r.1.cookie == None)
      && (r.1.status == 200 ==>
            var id := Verify(c.value, cfg.refreshSecret, now).value.claims.id;
            && CookieToken(r.1).Some?
            && r.1.cookie == Some(RefreshCookie(CookieToken(r.1).value))
            && r.0.registry == s.registry[RefreshKey(id) := Entry(CookieToken(r.1).value, RefreshLifetime)]
            && Verify(CookieToken(r.1).value, cfg.refreshSecret, now) == Some(Payload(Claims(id, None, None), now, now + RefreshLifetime))
            && r.1.reply.TokenReply?)
  {
    if !CookieMissing(c) && SessionMatches(s, c.value, cfg, now) && cfg.accessSecret != "" {
      var d := Verify(c.value, cfg.refreshSecret, now).value;
      RefreshTokenRoundTrip(d.claims, cfg, now, now);
    }
  }

  /**
   * The access token `refresh` mints is built from the refresh token's claims,
   * which hold the id alone: it carries the user's id and neither their
   * username nor their email.
   */
  lemma {:induction false} RefreshAccessTokenCarriesIdOnly(s: State, c: string, cfg: Config, now: nat)
    requires Inv(s, cfg)
    requires RefreshStep(s, Some(c), cfg, now).1.status == 200
    ensures var r := RefreshStep(s, Some(c), cfg, now);
      && r.1.reply.TokenReply?
      && VerifyToken(r.1.reply.token, cfg, now)
         == Some(Payload(Claims(Verify(c, cfg.refreshSecret, now).value.claims.id, None, None), now, now + AccessLifetime))
  {
    var d := Verify(c, cfg.refreshSecret, now).value;
    SlotTokenClaims(s, c, d, cfg, now);
    AccessTokenRoundTrip(d.claims, cfg, now, now);
  }

  /** A cookie that matches its slot decodes to a refresh token as login and refresh mint them. */
  lemma SlotTokenClaims(s: State, c: string, d: Payload, cfg: Config, now: nat)
    requires Inv(s, cfg)
    requires Verify(c, cfg.refreshSecret, now) == Some(d)
    requires RefreshKey(d.claims.id) in s.registry && s.registry[RefreshKey(d.claims.id)].value == c
    ensures d.claims == Claims(d.claims.id, None, None)
    ensures c == Encode(Token(Payload(d.claims, d.iat, d.iat + RefreshLifetime), cfg.refreshSecret))
  {
    var key := RefreshKey(d.claims.id);
    DecodeIsInverse(c, Token(d, cfg.refreshSecret));
    assert SlotHolds(s, key, cfg);
    RefreshKeyInjective(TokenId(c).value, d.claims.id);
  }

  /**
   * Rotation hands out a new token exactly when the old one was minted in an
   * earlier second: tokens carry no nonce, so one minted in the current second
   * with the same id is the same string.
   */
  lemma {:induction false} RotationFreshness(s: State, c: string, cfg: Config, now: nat)
    requires Inv(s, cfg)
    requires RefreshStep(s, Some(c), cfg, now).1.status == 200
    ensures CookieToken(RefreshStep(s, Some(c), cfg, now).1) != Some(c) <==> Verify(c, cfg.refreshSecret, now).value.iat != now
  {
    var d := Verify(c, cfg.refreshSecret, now).value;
    SlotTokenClaims(s, c, d, cfg, now);
    var minted := GenerateRefreshToken(d.claims, cfg, now);
    assert Decode(minted).value.payload.iat == now;
    DecodeIsInverse(c, Token(d, cfg.refreshSecret));
    if d.iat == now {
      EncodeInjective(Token(Payload(d.claims, d.iat, d.iat + RefreshLifetime), cfg.refreshSecret), Decode(minted).value);
    }
  }

  /**
   * Rotation revokes: once a refresh has handed out a new token, presenting
   * the old one again, at any time, is a 403 that changes nothing.
   */
  lemma {:induction false} RotationRevokesOldToken(s: State, c: string, cfg: Config, now: nat, later: nat)
    requires RefreshStep(s, Some(c), cfg, now).1.status == 200
    requires Decode(c).Some? && Decode(c).value.payload.iat != now
    ensures var s1 := RefreshStep(s, Some(c), cfg, now).0;
      var r := RefreshStep(s1, Some(c), cfg, later);
      r.0 == s1 && r.1.status == 403 && r.1.cookie == None
  {
    var d := Verify(c, cfg.refreshSecret, now).value;
    var minted := GenerateRefreshToken(d.claims, cfg, now);
    assert Decode(minted).value.payload.iat == now;
    assert minted != c;
    RefreshOutcome(s, Some(c), cfg, now);
    var s1 := RefreshStep(s, Some(c), cfg, now).0;
    assert s1.registry[RefreshKey(d.claims.id)].value == minted;
    RefreshOutcome(s1, Some(c), cfg, later);
  }

  /**
   * Without a new token rotation revokes nothing: refreshing in the second
   * the token was minted hands the same token back, and it is accepted again.
   */
  lemma {:induction false} SameSecondRotationKeepsOldToken(s: State, c: string, cfg: Config, now: nat)
    requires Inv(s, cfg)
    requires RefreshStep(s, Some(c), cfg, now).1.status == 200
    requires Verify(c, cfg.refreshSecret, now).value.iat == now
    ensures var r := RefreshStep(s, Some(c), cfg, now);
      && r.1.cookie == Some(RefreshCookie(c))
      && RefreshStep(r.0, Some(c), cfg, now).1.status == 200
  {
    RotationFreshness(s, c, cfg, now);
    RefreshOutcome(s, Some(c), cfg, now);
    var s1 := RefreshStep(s, Some(c), cfg, now).0;
    RefreshOutcome(s1, Some(c), cfg, now);
  }

  /**
   * A user who has just registered can log in with the same password, provided
   * `compare` accepts the password against its own hash; with a secret unset
   * the login is a 500 instead.
   */
  lemma {:induction false} RegisterThenLogin(s: State, u: string, e: string, p: string, h: Hasher, salt: nat, cfg: Config, t1: nat, t2: nat)
    requires FindByUsername(s.rows, u).None?
    requires h.compare(p, h.hash(p, SaltRounds, salt))
    ensures var s1 := RegisterStep(s, u, e, p, h, salt, cfg, t1).0;
      var r := LoginStep(s1, u, p, h, cfg, t2);
      && r.1.status == (if SecretsSet(cfg) then 200 else 500)
      && (r.1.status == 200 ==> r.1.reply.LoggedIn? && r.1.reply.safeUser == SafeUser(s.nextId, u, e))
  {
    FindAfterInsert(s.rows, UserRecord(s.nextId, u, e, h.hash(p, SaltRounds, salt)), u);
  }

  /** The cookie a login sets is accepted by `refresh` for the next seven days. */
  lemma {:induction false} LoginThenRefresh(s: State, u: string, p: string, h: Hasher, cfg: Config, t1: nat, t2: nat)
    requires LoginStep(s, u, p, h, cfg, t1).1.status == 200
    requires t2 < t1 + RefreshLifetime
    ensures var r := LoginStep(s, u, p, h, cfg, t1);
      CookieToken(r.1).Some? && RefreshStep(r.0, CookieToken(r.1), cfg, t2).1.status == 200
  {
    LoginOutcome(s, u, p, h, cfg, t1);
    var r := LoginStep(s, u, p, h, cfg, t1);
    var user := FindByUsername(s.rows, u).value;
    RefreshTokenRoundTrip(UserClaims(Strip(user)), cfg, t1, t2);
    RefreshOutcome(r.0, CookieToken(r.1), cfg, t2);
  }

  /** Logging in again in a different second revokes the first login's refresh token: one session per user. */
  lemma {:induction false} SecondLoginRevokesFirst(s: State, u: string, p: string, h: Hasher, cfg: Config, t1: nat, t2: nat, t3: nat)
    requires LoginStep(s, u, p, h, cfg, t1).1.status == 200
    requires t1 != t2
    ensures var r1 := LoginStep(s, u, p, h, cfg, t1);
      var r2 := LoginStep(r1.0, u, p, h, cfg, t2);
      CookieToken(r1.1).Some? && RefreshStep(r2.0, CookieToken(r1.1), cfg, t3).1.status == 403
  {
    var r1 := LoginStep(s, u, p, h, cfg, t1);
    var user := FindByUsername(s.rows, u).value;
    var claims := UserClaims(Strip(user));
    LoginOutcome(s, u, p, h, cfg, t1);
    LoginOutcome(r1.0, u, p, h, cfg, t2);
    RefreshTokenIdentity(claims, claims, cfg, t1, t2);
    var r2 := LoginStep(r1.0, u, p, h, cfg, t2);
    RefreshOutcome(r2.0, CookieToken(r1.1), cfg, t3);
  }

  /** With an unset refresh secret no session can be refreshed: every cookie is refused, and nothing changes. */
  lemma {:induction false} UnsetRefreshSecretRefreshesNothing(s: State, c: Option<string>, cfg: Config, now: nat)
    requires cfg.refreshSecret == ""
    ensures var r := RefreshStep(s, c, cfg, now);
      r.0 == s && r.1.status == (if CookieMissing(c) then 401 else 403) && r.1.cookie == None
  {
  }
}
