/**
 * The access guard `authenticateToken`: take the second space-separated field
 * of the `Authorization` header, verify it with the access secret, and either
 * attach the decoded payload to the request and go on, or answer 404.
 * The first field is never looked at, so the scheme need not be `Bearer`.
 */
module AuthMiddleware {
  import opened Wrappers
  import opened Text
  import opened TokenFormat
  import opened Jwt
  import opened Http

  const NoTokenMessage := "Access Denied, no token provided"
  const InvalidTokenMessage := "Invalid Token"

  /**
   * `authHeader && authHeader.split(" ")[1]` followed by the `!token` test: the
   * second field when the header is present and that field exists and is not
   * empty ("Bearer  t", with two spaces, has an empty second field).
   */
  function ExtractToken(header: Option<string>): (r: Option<string>)
    ensures r.Some? ==> |r.value| > 0 && ' ' !in r.value
  {
    match header
    case None => None
    case Some(h) =>
      var fields := Split(h, ' ');
      if |fields| >= 2 && fields[1] != "" then Some(fields[1]) else None
  }

  /** The guard's decision. */
  datatype Decision = NoToken | InvalidToken | Accept(user: Payload)

  function Authenticate(header: Option<string>, secret: string, now: nat): Decision
  {
    match ExtractToken(header)
    case None => NoToken
    case Some(token) =>
      match Verify(token, secret, now)
      case None => InvalidToken
      case Some(payload) => Accept(payload)
  }

  /**
   * `authenticateToken(req, res, next)` with `JWT_SECRET` as `secret`. Both
   * rejections answer 404 and leave `req.user` and `next` alone; acceptance
   * sets `req.user` to the decoded payload, calls `next` once and sends nothing.
   */
  method AuthenticateToken(req: Request, res: Response, next: Next, secret: string, now: nat)
    modifies req`user, res`status, res`sent, next
    ensures match Authenticate(req.authorization, secret, now)
      case NoToken =>
        && res.status == 404 && res.sent == Some(ErrorReply(NoTokenMessage))
        && req.user == old(req.user) && next.calls == old(next.calls)
      case InvalidToken =>
        && res.status == 404 && res.sent == Some(ErrorReply(InvalidTokenMessage))
        && req.user == old(req.user) && next.calls == old(next.calls)
      case Accept(payload) =>
        && req.user == Some(payload) && next.calls == old(next.calls) + 1
        && res.status == old(res.status) && res.sent == old(res.sent)
  {
    var authHeader := req.authorization;
    var token := ExtractToken(authHeader);
    if token.None? {
      res.Send(404, ErrorReply(NoTokenMessage));
      return;
    }
    var decoded := Verify(token.value, secret, now);
    if decoded.None? {
      res.Send(404, ErrorReply(InvalidTokenMessage));
      return;
    }
    req.user := decoded;
    next.Call();
  }

  /** The token is the second field whatever the first one is: `<scheme> <token>` yields the token. */
  lemma {:induction false} SecondFieldIsToken(scheme: string, token: string)
    requires ' ' !in scheme && ' ' !in token && token != ""
    ensures ExtractToken(Some(scheme + " " + token)) == Some(token)
  {
    SplitAfterPiece(scheme, ' ', token);
    SplitWithoutSeparator(token, ' ');
  }

  /** Fields after the second one are ignored. */
  lemma {:induction false} LaterFieldsIgnored(scheme: string, token: string, rest: string)
    requires ' ' !in scheme && ' ' !in token && token != ""
    ensures ExtractToken(Some(scheme + " " + token + " " + rest)) == Some(token)
  {
    assert scheme + " " + token + " " + rest == scheme + " " + (token + " " + rest);
    SplitAfterPiece(scheme, ' ', token + " " + rest);
    SplitAfterPiece(token, ' ', rest);
  }

  /** A header with no space (a bare token, or just "Bearer") yields no token. */
  lemma NoSpaceNoToken(h: string)
    requires ' ' !in h
    ensures ExtractToken(Some(h)) == None
  {
    SplitWithoutSeparator(h, ' ');
  }

  /** Two spaces after the scheme make the second field empty, so there is no token. */
  lemma {:induction false} DoubleSpaceNoToken(scheme: string, rest: string)
    requires ' ' !in scheme
    ensures ExtractToken(Some(scheme + "  " + rest)) == None
  {
    assert scheme + "  " + rest == scheme + " " + ("" + " " + rest);
    SplitAfterPiece(scheme, ' ', "" + " " + rest);
    SplitAfterPiece("", ' ', rest);
  }

  /**
   * Where an extracted token sits: the header is the first field, one space,
   * then the token, and the first field itself has no space.
   */
  lemma {:induction false} ExtractedTokenPosition(h: string, token: string)
    requires ExtractToken(Some(h)) == Some(token)
    ensures var w := Split(h, ' ')[0];
      && ' ' !in w
      && |w| + 1 + |token| <= |h|
      && h[..|w|] == w && h[|w|] == ' ' && h[|w| + 1..|w| + 1 + |token|] == token
  {
    var fields := Split(h, ' ');
    JoinSplit(h, ' ');
    JoinPieceAt(fields, " ", 0);
    JoinPieceAt(fields, " ", 1);
    assert Offset(fields, " ", 1) == |fields[0]| + 1;
    assert h == fields[0] + " " + Join(fields[1..], " ");
  }

  /** An access token presented under any scheme word is accepted until its hour is up, with its own payload. */
  lemma AccessTokenAccepted(scheme: string, user: Claims, cfg: Config, issued: nat, now: nat)
    requires ' ' !in scheme && cfg.accessSecret != ""
    requires now < issued + AccessLifetime
    ensures Authenticate(Some(scheme + " " + GenerateToken(user, cfg, issued)), cfg.accessSecret, now)
         == Accept(Payload(user, issued, issued + AccessLifetime))
  {
    var t := GenerateToken(user, cfg, issued);
    EncodeIsOneWord(Token(Payload(user, issued, issued + AccessLifetime), cfg.accessSecret));
    SecondFieldIsToken(scheme, t);
    AccessTokenRoundTrip(user, cfg, issued, now);
  }

  /** Once its hour is up, an access token is refused although its signature is right. */
  lemma ExpiredAccessTokenRejected(scheme: string, user: Claims, cfg: Config, issued: nat, now: nat)
    requires ' ' !in scheme && cfg.accessSecret != ""
    requires now >= issued + AccessLifetime
    ensures Authenticate(Some(scheme + " " + GenerateToken(user, cfg, issued)), cfg.accessSecret, now) == InvalidToken
  {
    var t := GenerateToken(user, cfg, issued);
    EncodeIsOneWord(Token(Payload(user, issued, issued + AccessLifetime), cfg.accessSecret));
    SecondFieldIsToken(scheme, t);
    AccessTokenRoundTrip(user, cfg, issued, now);
  }

  /** A refresh token presented as a bearer token is refused: it was signed with the other secret. */
  lemma RefreshTokenAsBearerRejected(scheme: string, user: Claims, cfg: Config, issued: nat, now: nat)
    requires ' ' !in scheme
    requires cfg.refreshSecret != "" && DistinctSecrets(cfg)
    ensures Authenticate(Some(scheme + " " + GenerateRefreshToken(user, cfg, issued)), cfg.accessSecret, now) == InvalidToken
  {
    var t := GenerateRefreshToken(user, cfg, issued);
    EncodeIsOneWord(Token(Payload(Claims(user.id, None, None), issued, issued + RefreshLifetime), cfg.refreshSecret));
    SecondFieldIsToken(scheme, t);
    if cfg.accessSecret != "" {
      TokenKindsDoNotCross(user, cfg, issued, now);
    }
  }

  /** With an unset `JWT_SECRET` nothing gets through: every request is refused with 404. */
  lemma UnsetSecretAdmitsNobody(header: Option<string>, now: nat)
    ensures Authenticate(header, "", now) == if ExtractToken(header).None? then NoToken else InvalidToken
  {
  }
}
