/**
 * The parts of Express's request, response and `next` that the authentication
 * code reads or writes. Everything else about HTTP is out of this model.
 */
module Http {
  import opened Wrappers
  import opened TokenFormat
  import opened AuthSchema

  /** A user as sent to clients: the stored record without its `password` field. */
  datatype SafeUser = SafeUser(id: nat, username: string, email: string)

  /** A cookie set with `res.cookie(name, value, options)`. */
  datatype Cookie = Cookie(name: string, value: string, httpOnly: bool, secure: bool, sameSite: string, path: string)

  /** The JSON bodies the handlers send. */
  datatype Reply =
    | ErrorReply(error: string)
    | MessageReply(message: string)
    | InvalidRequest(message: string, error: string)
    | Registered(message: string, user: SafeUser, token: string)
    | LoggedIn(message: string, safeUser: SafeUser, token: string)
    | TokenReply(token: string)

  /** What a handler has sent: the status code, the JSON body and the cookie it set, if any. */
  datatype Outcome = Outcome(status: nat, reply: Reply, cookie: Option<Cookie>)

  class Request {
    /** `req.body` */
    var body: Body
    /** `req.cookies.refreshToken` */
    var refreshCookie: Option<string>
    /** `req.headers["authorization"]` */
    var authorization: Option<string>
    /** `req.validated`, written by the validation middleware */
    var validated: Option<Validated>
    /** `req.user`, written by the access guard */
    var user: Option<Payload>

    constructor (body: Body, refreshCookie: Option<string>, authorization: Option<string>)
      ensures this.body == body && this.refreshCookie == refreshCookie && this.authorization == authorization
      ensures validated == None && user == None
    {
      this.body := body;
      this.refreshCookie := refreshCookie;
      this.authorization := authorization;
      validated := None;
      user := None;
    }
  }

  class Response {
    var status: nat
    var sent: Option<Reply>
    var cookie: Option<Cookie>

    /** A response that a handler has not touched yet: Express starts it at status 200. */
    constructor ()
      ensures Unsent()
    {
      status := 200;
      sent := None;
      cookie := None;
    }

    predicate Unsent()
      reads this
    {
      status == 200 && sent == None && cookie == None
    }

    /** What has been sent so far, once a body has been sent. */
    function Result(): Outcome
      reads this
      requires sent.Some?
    {
      Outcome(status, sent.value, cookie)
    }

    /** `res.status(code).json(reply)` */
    method Send(code: nat, reply: Reply)
      modifies this`status, this`sent
      ensures status == code && sent == Some(reply)
    {
      status := code;
      sent := Some(reply);
    }

    /** `res.json(reply)`: the status stays what it was. */
    method Json(reply: Reply)
      modifies this`sent
      ensures sent == Some(reply)
    {
      sent := Some(reply);
    }

    /** `res.cookie(name, value, options)` */
    method SetCookie(c: Cookie)
      modifies this`cookie
      ensures cookie == Some(c)
    {
      cookie := Some(c);
    }
  }

  /** The `next` callback of a middleware, counting how often it has been called. */
  class Next {
    var calls: nat

    constructor ()
      ensures calls == 0
    {
      calls := 0;
    }

    method Call()
      modifies this
      ensures calls == old(calls) + 1
    {
      calls := calls + 1;
    }
  }
}
