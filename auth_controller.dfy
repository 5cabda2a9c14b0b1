/**
 * The authentication controller: `registerUser`, `loginUser` and `refresh`.
 *
 * The state is the `users` table (a sequence of rows in insertion order, with
 * the next serial id) and the Redis registry, which maps `refresh:<id>` to the
 * one refresh token currently valid for that user. Each handler is given
 * twice: as a function from the old state to the new state and what is sent
 * (the specification), and as a method of `AuthService` that does the same
 * step by step on the fields, proved equal to it. bcrypt is a parameter
 * (`Hasher`); its random salt and the clock are arguments.
 */
module AuthController {
  import opened Wrappers
  import opened Text
  import opened TokenFormat
  import opened Jwt
  import opened AuthSchema
  import opened Http

  const DuplicateUsernameMessage := "Username already exists"
  const RegisteredMessage := "New user created sucessfully"
  const UserNotFoundMessage := "User not found"
  const WrongPasswordMessage := "Wrong Username or Password"
  const LoginSuccessMessage := "Login Successful"
  const NoRefreshTokenMessage := "No Refresh Token"
  const InvalidRefreshTokenMessage := "Invalid refresh token"
  const SessionMismatchMessage := "Expired or invalid refresh token"
  const RegisterServerErrorMessage := "Server error during registration"
  const LoginServerErrorMessage := "Server error during login"
  const RefreshServerErrorMessage := "Server error during refresh"

  /** The bcrypt cost factor passed to `bcrypt.hash`. */
  const SaltRounds: nat := 10

  /** `{ EX: 60 * 60 * 24 * 7 }`: the registry entry's time to live, in seconds. */
  const RegistryTtl: nat := 60 * 60 * 24 * 7

  /** A row of the `users` table, as `SELECT *` and `RETURNING *` give it. */
  datatype UserRecord = UserRecord(id: nat, username: string, email: string, password: string)

  /**
   * bcrypt, not modelled: `hash(password, rounds, salt)` and `compare(password, hash)`.
   * The salt is the randomness `bcrypt.hash` draws for itself.
   */
  datatype Hasher = Hasher(hash: (string, nat, nat) -> string, compare: (string, string) -> bool)

  /** A Redis entry: the stored string and the expiry it was set with. */
  datatype Entry = Entry(value: string, ttl: nat)

  /** The users table, the next serial id, and the refresh registry. */
  datatype State = State(rows: seq<UserRecord>, nextId: nat, registry: map<string, Entry>)

  /** The registry key `refresh:${id}`. */
  function RefreshKey(id: nat): string
  {
    "refresh:" + Decimal(id)
  }

  /** Different users have different registry keys, so one user's session never touches another's. */
  lemma RefreshKeyInjective(a: nat, b: nat)
    ensures RefreshKey(a) == RefreshKey(b) <==> a == b
  {
    if RefreshKey(a) == RefreshKey(b) {
      var p := "refresh:";
      assert Decimal(a) == RefreshKey(a)[|p|..];
      assert Decimal(b) == RefreshKey(b)[|p|..];
      DecimalInjective(a, b);
    }
  }

  /**
   * `getUserByUsername(username)`: the first row with that username, or None
   * when no row has it.
   */
  function FindByUsername(rows: seq<UserRecord>, name: string): (r: Option<UserRecord>)
    ensures r.Some? ==> r.value in rows && r.value.username == name
    ensures r.None? <==> forall i :: 0 <= i < |rows| ==> rows[i].username != name
  {
    if |rows| == 0 then None
    else if rows[0].username == name then Some(rows[0])
    else FindByUsername(rows[1..], name)
  }

  /** After a row is appended, a lookup of its username that used to fail finds it; other lookups are unchanged. */
  lemma {:induction false} FindAfterInsert(rows: seq<UserRecord>, r: UserRecord, name: string)
    ensures FindByUsername(rows + [r], name)
         == if FindByUsername(rows, name).None? && name == r.username then Some(r) else FindByUsername(rows, name)
  {
    if |rows| > 0 {
      assert (rows + [r])[1..] == rows[1..] + [r];
      FindAfterInsert(rows[1..], r, name);
    } else {
      assert (rows + [r])[1..] == [];
    }
  }

  /** `const { password: _, ...safeUser } = user` */
  function Strip(u: UserRecord): SafeUser
  {
    SafeUser(u.id, u.username, u.email)
  }

  /** The fields `generateToken` and `generateRefreshToken` read from a safe user. */
  function UserClaims(u: SafeUser): Claims
  {
    Claims(u.id, Some(u.username), Some(u.email))
  }

  /** The `refreshToken` cookie: HTTP-only, not `secure`, same-site strict, for the whole site. */
  function RefreshCookie(value: string): Cookie
  {
    Cookie("refreshToken", value, true, false, "strict", "/")
  }

  // ----- Specification of the three handlers -----

  /**
   * `registerUser` on validated `{ username, email, password }`. The row is
   * inserted before the token is signed, so when `jwt.sign` throws on an unset
   * access secret the row stays and the catch block answers 500.
   */
  function RegisterStep(s: State, username: string, email: string, password: string,
                    h: Hasher, salt: nat, cfg: Config, now: nat): (State, Outcome)
  {
    if FindByUsername(s.rows, username).Some? then
      (s, Outcome(400, ErrorReply(DuplicateUsernameMessage), None))
    else
      var record := UserRecord(s.nextId, username, email, h.hash(password, SaltRounds, salt));
      var safe := Strip(record);
      var s' := s.(rows := s.rows + [record], nextId := s.nextId + 1);
      if cfg.accessSecret == "" then
        (s', Outcome(500, ErrorReply(RegisterServerErrorMessage), None))
      else
        (s', Outcome(201, Registered(RegisteredMessage, safe, GenerateToken(UserClaims(safe), cfg, now)), None))
  }

  /**
   * `loginUser` on validated `{ username, password }`. Both tokens are signed
   * before the registry is written, so an unset secret is a 500 that changes
   * nothing.
   */
  function LoginStep(s: State, username: string, password: string, h: Hasher, cfg: Config, now: nat): (State, Outcome)
  {
    match FindByUsername(s.rows, username)
    case None => (s, Outcome(404, ErrorReply(UserNotFoundMessage), None))
    case Some(user) =>
      if !h.compare(password, user.password) then
        (s, Outcome(404, ErrorReply(WrongPasswordMessage), None))
      else if !SecretsSet(cfg) then
        (s, Outcome(500, ErrorReply(LoginServerErrorMessage), None))
      else
        var safe := Strip(user);
        var refreshToken := GenerateRefreshToken(UserClaims(safe), cfg, now);
        var token := GenerateToken(UserClaims(safe), cfg, now);
        (s.(registry := s.registry[RefreshKey(safe.id) := Entry(refreshToken, RegistryTtl)]),
         Outcome(200, LoggedIn(LoginSuccessMessage, safe, token), Some(RefreshCookie(refreshToken))))
  }

  /** `!oldRefreshToken`: the cookie is missing or empty. */
  predicate CookieMissing(cookie: Option<string>)
  {
    cookie.None? || cookie.value == ""
  }

  /**
   * `refresh` on the `refreshToken` cookie. An unset refresh secret fails every
   * verification (403); an unset access secret makes the first `jwt.sign`
   * throw (500) before the registry is written.
   */
  function RefreshStep(s: State, cookie: Option<string>, cfg: Config, now: nat): (State, Outcome)
  {
    if CookieMissing(cookie) then
      (s, Outcome(401, MessageReply(NoRefreshTokenMessage), None))
    else match Verify(cookie.value, cfg.refreshSecret, now)
      case None => (s, Outcome(403, MessageReply(InvalidRefreshTokenMessage), None))
      case Some(decoded) =>
        var key := RefreshKey(decoded.claims.id);
        if key !in s.registry || s.registry[key].value == "" || s.registry[key].value != cookie.value then
          (s, Outcome(403, MessageReply(SessionMismatchMessage), None))
        else if cfg.accessSecret == "" then
          (s, Outcome(500, MessageReply(RefreshServerErrorMessage), None))
        else
          var newAccessToken := GenerateToken(decoded.claims, cfg, now);
          var newRefreshToken := GenerateRefreshToken(decoded.claims, cfg, now);
          (s.(registry := s.registry[key := Entry(newRefreshToken, RegistryTtl)]),
           Outcome(200, TokenReply(newAccessToken), Some(RefreshCookie(newRefreshToken))))
  }

  // ----- The invariant the handlers keep -----

  predicate UniqueUsernames(rows: seq<UserRecord>)
  {
    forall i, j :: 0 <= i < j < |rows| ==> rows[i].username != rows[j].username
  }

  predicate IdsFresh(rows: seq<UserRecord>, nextId: nat)
  {
    && (forall i :: 0 <= i < |rows| ==> rows[i].id < nextId)
    && (forall i, j :: 0 <= i < j < |rows| ==> rows[i].id != rows[j].id)
  }

  predicate HasId(rows: seq<UserRecord>, id: nat)
  {
    exists i :: 0 <= i < |rows| && rows[i].id == id
  }

  /** `v` is a refresh token for `id` as `generateRefreshToken` mints them: id only, refresh secret, seven days. */
  predicate IsRefreshTokenFor(v: string, id: nat, cfg: Config)
  {
    match Decode(v)
    case None => false
    case Some(t) =>
      t == Token(Payload(Claims(id, None, None), t.payload.iat, t.payload.iat + RefreshLifetime), cfg.refreshSecret)
  }

  /** The id a stored token names, if it decodes. */
  function TokenId(v: string): Option<nat>
  {
    match Decode(v)
    case None => None
    case Some(t) => Some(t.payload.claims.id)
  }

  /** Registry slot `k` holds a refresh token of an existing user, under that user's key, with the seven-day expiry. */
  predicate SlotHolds(s: State, k: string, cfg: Config)
    requires k in s.registry
  {
    var e := s.registry[k];
    && e.ttl == RegistryTtl
    && TokenId(e.value).Some?
    && k == RefreshKey(TokenId(e.value).value)
    && HasId(s.rows, TokenId(e.value).value)
    && IsRefreshTokenFor(e.value, TokenId(e.value).value, cfg)
  }

  /**
   * Usernames are unique, ids are unique and below the next serial, and every
   * registry slot holds a refresh token minted for the user its key names.
   */
  predicate Inv(s: State, cfg: Config)
  {
    && UniqueUsernames(s.rows)
    && IdsFresh(s.rows, s.nextId)
    && forall k :: k in s.registry ==> SlotHolds(s, k, cfg)
  }

  /** A freshly minted refresh token passes the slot check for its id. */
  lemma MintedIsRefreshTokenFor(user: Claims, cfg: Config, now: nat)
    requires cfg.refreshSecret != ""
    ensures IsRefreshTokenFor(GenerateRefreshToken(user, cfg, now), user.id, cfg)
    ensures TokenId(GenerateRefreshToken(user, cfg, now)) == Some(user.id)
  {
  }

  lemma {:induction false} RegisterPreservesInv(s: State, username: string, email: string, password: string,
                                                h: Hasher, salt: nat, cfg: Config, now: nat)
    requires Inv(s, cfg)
    ensures Inv(RegisterStep(s, username, email, password, h, salt, cfg, now).0, cfg)
  {
    if FindByUsername(s.rows, username).None? {
      var s' := RegisterStep(s, username, email, password, h, salt, cfg, now).0;
      var n := |s.rows|;
      assert s'.rows[n].username == username;
      assert forall i :: 0 <= i < n ==> s'.rows[i] == s.rows[i];
      forall k | k in s'.registry ensures SlotHolds(s', k, cfg) {
        assert SlotHolds(s, k, cfg);
        var id := TokenId(s.registry[k].value).value;
        var i :| 0 <= i < n && s.rows[i].id == id;
        assert s'.rows[i].id == id;
      }
    }
  }

  /** Overwriting a user's slot with a refresh token freshly minted for that user keeps the invariant. */
  lemma {:induction false} SetSlotPreservesInv(s: State, user: Claims, cfg: Config, now: nat)
    requires cfg.refreshSecret != ""
    requires Inv(s, cfg)
    requires HasId(s.rows, user.id)
    ensures Inv(s.(registry := s.registry[RefreshKey(user.id) := Entry(GenerateRefreshToken(user, cfg, now), RegistryTtl)]), cfg)
  {
    var key := RefreshKey(user.id);
    var s' := s.(registry := s.registry[key := Entry(GenerateRefreshToken(user, cfg, now), RegistryTtl)]);
    MintedIsRefreshTokenFor(user, cfg, now);
    assert SlotHolds(s', key, cfg);
    forall k | k in s'.registry ensures SlotHolds(s', k, cfg) {
      if k != key {
        assert SlotHolds(s, k, cfg);
      }
    }
  }

  lemma {:induction false} LoginPreservesInv(s: State, username: string, password: string, h: Hasher, cfg: Config, now: nat)
    requires Inv(s, cfg)
    ensures Inv(LoginStep(s, username, password, h, cfg, now).0, cfg)
  {
    var user := FindByUsername(s.rows, username);
    if user.Some? && h.compare(password, user.value.password) && SecretsSet(cfg) {
      var i :| 0 <= i < |s.rows| && s.rows[i] == user.value;
      SetSlotPreservesInv(s, UserClaims(Strip(user.value)), cfg, now);
    }
  }

  lemma {:induction false} RefreshPreservesInv(s: State, cookie: Option<string>, cfg: Config, now: nat)
    requires Inv(s, cfg)
    ensures Inv(RefreshStep(s, cookie, cfg, now).0, cfg)
  {
    if !CookieMissing(cookie) && Verify(cookie.value, cfg.refreshSecret, now).Some? {
      var decoded := Verify(cookie.value, cfg.refreshSecret, now).value;
      var key := RefreshKey(decoded.claims.id);
      if key in s.registry && s.registry[key].value == cookie.value && cfg.accessSecret != "" {
        DecodeIsInverse(cookie.value, Token(decoded, cfg.refreshSecret));
        assert TokenId(cookie.value) == Some(decoded.claims.id);
        assert SlotHolds(s, key, cfg);
        SetSlotPreservesInv(s, decoded.claims, cfg, now);
      }
    }
  }

  /** A session that matches its slot belongs to a user in the table. */
  lemma StoredSessionHasUser(s: State, cookie: string, decoded: Payload, cfg: Config, now: nat)
    requires Inv(s, cfg)
    requires Verify(cookie, cfg.refreshSecret, now) == Some(decoded)
    requires RefreshKey(decoded.claims.id) in s.registry
    requires s.registry[RefreshKey(decoded.claims.id)].value == cookie
    ensures HasId(s.rows, decoded.claims.id)
  {
    DecodeIsInverse(cookie, Token(decoded, cfg.refreshSecret));
    assert TokenId(cookie) == Some(decoded.claims.id);
    assert SlotHolds(s, RefreshKey(decoded.claims.id), cfg);
  }

  /** The accepting branch of `refresh`, spelled out. */
  lemma RefreshAccepted(s: State, cookie: string, decoded: Payload, cfg: Config, now: nat)
    requires cookie != "" && cfg.accessSecret != ""
    requires Verify(cookie, cfg.refreshSecret, now) == Some(decoded)
    requires RefreshKey(decoded.claims.id) in s.registry
    requires s.registry[RefreshKey(decoded.claims.id)].value == cookie
    ensures RefreshStep(s, Some(cookie), cfg, now)
         == (s.(registry := s.registry[RefreshKey(decoded.claims.id) := Entry(GenerateRefreshToken(decoded.claims, cfg, now), RegistryTtl)]),
             Outcome(200, TokenReply(GenerateToken(decoded.claims, cfg, now)), Some(RefreshCookie(GenerateRefreshToken(decoded.claims, cfg, now)))))
  {
  }

  // ----- The handlers, step by step -----

  /** The controller with the state it shares across requests and its configuration. */
  class AuthService {
    const cfg: Config
    const hasher: Hasher
    /** The `users` table. */
    var rows: seq<UserRecord>
    /** The value the `users.id` serial hands out next. */
    var nextId: nat
    /** The Redis keys and values. */
    var registry: map<string, Entry>

    /** An empty table (serials start at 1) and an empty registry. */
    constructor (cfg: Config, hasher: Hasher)
      ensures this.cfg == cfg && this.hasher == hasher
      ensures Current() == State([], 1, map[])
      ensures Valid()
    {
      this.cfg := cfg;
      this.hasher := hasher;
      rows := [];
      nextId := 1;
      registry := map[];
    }

    function Current(): State
      reads this
    {
      State(rows, nextId, registry)
    }

    predicate Valid()
      reads this
    {
      Inv(Current(), cfg)
    }

    /** `createUser(username, email, hashedPassword)`: an unconditional INSERT … RETURNING *. */
    method CreateUser(username: string, email: string, hashedPassword: string) returns (user: UserRecord)
      modifies this`rows, this`nextId
      ensures user == UserRecord(old(nextId), username, email, hashedPassword)
      ensures rows == old(rows) + [user] && nextId == old(nextId) + 1
    {
      user := UserRecord(nextId, username, email, hashedPassword);
      rows := rows + [user];
      nextId := nextId + 1;
    }

    /** `redis.get(key)`: the stored string, or None (Redis's null) when the key is absent. */
    function RedisGet(key: string): (r: Option<string>)
      reads this
      ensures r.Some? <==> key in registry
      ensures r.Some? ==> r.value == registry[key].value
    {
      if key in registry then Some(registry[key].value) else None
    }

    /** `redis.set(key, value, { EX: ttl })`: replaces whatever the key held. */
    method RedisSet(key: string, value: string, ttl: nat)
      modifies this`registry
      ensures registry == old(registry)[key := Entry(value, ttl)]
    {
      registry := registry[key := Entry(value, ttl)];
    }

    /**
     * `registerUser(req, res)`. It may change the users table and never the
     * registry (its frame leaves `registry` out).
     */
    method RegisterUser(req: Request, res: Response, salt: nat, now: nat)
      requires Valid() && res.Unsent()
      requires req.validated.Some? && req.validated.value.RegisterFields?
      modifies this`rows, this`nextId, res
      ensures Valid() && res.sent.Some?
      ensures var d := req.validated.value;
        (Current(), res.Result()) == RegisterStep(old(Current()), d.username, d.email, d.password, hasher, salt, cfg, now)
    {
      var d := req.validated.value;
      var existingUser := FindByUsername(rows, d.username);
      if existingUser.Some? {
        Answer(res, 400, ErrorReply(DuplicateUsernameMessage));
        return;
      }
      var hashedPassword := hasher.hash(d.password, SaltRounds, salt);
      var newUser := CreateUser(d.username, d.email, hashedPassword);
      var safeUser := Strip(newUser);
      RegisterPreservesInv(old(Current()), d.username, d.email, d.password, hasher, salt, cfg, now);
      if cfg.accessSecret == "" {
        res.Send(500, ErrorReply(RegisterServerErrorMessage));
        return;
      }
      var token := GenerateToken(UserClaims(safeUser), cfg, now);
      res.Send(201, Registered(RegisteredMessage, safeUser, token));
    }

    /** `loginUser(req, res)`. It may change the registry and never the users table. */
    method LoginUser(req: Request, res: Response, now: nat)
      requires Valid() && res.Unsent()
      requires req.validated.Some?
      modifies this`registry, res
      ensures Valid() && res.sent.Some?
      ensures var d := req.validated.value;
        (Current(), res.Result()) == LoginStep(old(Current()), d.username, d.password, hasher, cfg, now)
    {
      var d := req.validated.value;
      var user := FindByUsername(rows, d.username);
      if user.None? {
        Answer(res, 404, ErrorReply(UserNotFoundMessage));
        return;
      }
      var isMatch := hasher.compare(d.password, user.value.password);
      if !isMatch {
        Answer(res, 404, ErrorReply(WrongPasswordMessage));
        return;
      }
      if cfg.refreshSecret == "" || cfg.accessSecret == "" {
        Answer(res, 500, ErrorReply(LoginServerErrorMessage));
        return;
      }
      ghost var i :| 0 <= i < |rows| && rows[i] == user.value;
      assert rows[i].id == user.value.id;
      StartSession(res, user.value, now);
    }

    /**
     * The accepting tail of `loginUser` (lines 60-86): mint both tokens, store
     * the refresh token in the user's slot, set the cookie and answer with the
     * password-free user and the access token.
     */
    method StartSession(res: Response, user: UserRecord, now: nat)
      requires SecretsSet(cfg)
      requires Valid() && res.Unsent()
      requires HasId(rows, user.id)
      modifies this`registry, res
      ensures Valid() && res.sent.Some?
      ensures var claims := UserClaims(Strip(user));
        && Current() == old(Current()).(registry := old(registry)[RefreshKey(user.id) := Entry(GenerateRefreshToken(claims, cfg, now), RegistryTtl)])
        && res.Result() == Outcome(200, LoggedIn(LoginSuccessMessage, Strip(user), GenerateToken(claims, cfg, now)), Some(RefreshCookie(GenerateRefreshToken(claims, cfg, now))))
    {
      var safeUser := Strip(user);
      var refreshToken := GenerateRefreshToken(UserClaims(safeUser), cfg, now);
      var token := GenerateToken(UserClaims(safeUser), cfg, now);
      RedisSet(RefreshKey(safeUser.id), refreshToken, RegistryTtl);
      res.SetCookie(RefreshCookie(refreshToken));
      res.Json(LoggedIn(LoginSuccessMessage, safeUser, token));
      SetSlotPreservesInv(old(Current()), UserClaims(safeUser), cfg, now);
    }

    /** An early `return res.status(code).json(reply)`: the state is left as it was. */
    method Answer(res: Response, code: nat, reply: Reply)
      requires Valid() && res.Unsent()
      modifies res
      ensures Valid() && Current() == old(Current())
      ensures res.sent.Some? && res.Result() == Outcome(code, reply, None)
    {
      res.Send(code, reply);
    }

    /**
     * The accepting tail of `refresh`: mint both tokens, store the new refresh
     * token in the user's slot, set the cookie and answer with the access token.
     */
    method Rotate(res: Response, claims: Claims, now: nat)
      requires SecretsSet(cfg)
      requires Valid() && res.Unsent()
      requires HasId(rows, claims.id)
      modifies this`registry, res
      ensures Valid() && res.sent.Some?
      ensures Current() == old(Current()).(registry := old(registry)[RefreshKey(claims.id) := Entry(GenerateRefreshToken(claims, cfg, now), RegistryTtl)])
      ensures res.Result() == Outcome(200, TokenReply(GenerateToken(claims, cfg, now)), Some(RefreshCookie(GenerateRefreshToken(claims, cfg, now))))
    {
      var newAccessToken := GenerateToken(claims, cfg, now);
      var newRefreshToken := GenerateRefreshToken(claims, cfg, now);
      RedisSet(RefreshKey(claims.id), newRefreshToken, RegistryTtl);
      res.SetCookie(RefreshCookie(newRefreshToken));
      res.Json(TokenReply(newAccessToken));
      SetSlotPreservesInv(old(Current()), claims, cfg, now);
    }

    /** `refresh(req, res)`. It may change the registry and never the users table. */
    method Refresh(req: Request, res: Response, now: nat)
      requires Valid() && res.Unsent()
      modifies this`registry, res
      ensures Valid() && res.sent.Some?
      ensures (Current(), res.Result()) == RefreshStep(old(Current()), req.refreshCookie, cfg, now)
    {
      var oldRefreshToken := req.refreshCookie;
      if oldRefreshToken.None? || oldRefreshToken.value == "" {
        Answer(res, 401, MessageReply(NoRefreshTokenMessage));
        return;
      }
      var decoded := Verify(oldRefreshToken.value, cfg.refreshSecret, now);
      if decoded.None? {
        Answer(res, 403, MessageReply(InvalidRefreshTokenMessage));
        return;
      }
      CheckSessionAndRotate(res, oldRefreshToken.value, decoded.value, now);
    }

    /**
     * Lines 109-137 of `refresh`, once the cookie is present and verified: look
     * the session up, refuse a mismatch, and otherwise rotate.
     */
    method CheckSessionAndRotate(res: Response, cookie: string, decoded: Payload, now: nat)
      requires Valid() && res.Unsent()
      requires cookie != "" && Verify(cookie, cfg.refreshSecret, now) == Some(decoded)
      modifies this`registry, res
      ensures Valid() && res.sent.Some?
      ensures (Current(), res.Result()) == RefreshStep(old(Current()), Some(cookie), cfg, now)
    {
      var userId := decoded.claims.id;
      var storedToken := RedisGet(RefreshKey(userId));
      if storedToken.None? || storedToken.value == "" || storedToken.value != cookie {
        Answer(res, 403, MessageReply(SessionMismatchMessage));
        return;
      }
      if cfg.accessSecret == "" {
        Answer(res, 500, MessageReply(RefreshServerErrorMessage));
        return;
      }
      ghost var s0 := old(Current());
      StoredSessionHasUser(s0, cookie, decoded, cfg, now);
      RefreshAccepted(s0, cookie, decoded, cfg, now);
      Rotate(res, decoded.claims, now);
    }
  }
}
