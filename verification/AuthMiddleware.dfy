/**
 * The bearer-token middleware of the server: how the token is cut out of the
 * `Authorization` header, and which response or user each request gets.
 */
module AuthMiddleware {
  import opened Common
  import opened Text

  /**
   * `authHeader && authHeader.split(' ')[1]`: the second space-separated field
   * of the header. A missing or empty header, a header without a space and an
   * empty second field all give no token; the first field is not looked at.
   */
  function ExtractToken(header: Option<string>): (r: Option<string>)
    ensures r.Some? ==> Truthy(header) && r.value != "" && ' ' !in r.value
  {
    if !Truthy(header) then None
    else
      var parts := Split(header.value, ' ');
      if |parts| >= 2 && parts[1] != "" then Some(parts[1]) else None
  }

  /** Splitting `scheme + " " + rest` on spaces gives the scheme, then the pieces of `rest`. */
  lemma SplitAfterScheme(scheme: string, rest: string)
    requires ' ' !in scheme
    ensures Split(scheme + " " + rest, ' ') == [scheme] + Split(rest, ' ')
  {
    var h := scheme + " " + rest;
    assert h[|scheme|] == ' ';
    assert h[..|scheme|] == scheme;
    assert IndexOf(h, ' ') == Some(|scheme|);
    assert h[|scheme| + 1..] == rest;
  }

  /** The first piece of `token + tail`, when `tail` is empty or starts a new field, is `token`. */
  lemma FirstFieldOf(token: string, tail: string)
    requires ' ' !in token && (tail == [] || tail[0] == ' ')
    ensures Split(token + tail, ' ')[0] == token
  {
    var s := token + tail;
    if tail == [] {
      assert s == token;
    } else {
      assert s[|token|] == ' ';
      assert s[..|token|] == token;
      assert IndexOf(s, ' ') == Some(|token|);
    }
  }

  /** Whatever the first word is (`Bearer`, `Basic`, anything), the token is the second field. */
  lemma TokenAfterAnyScheme(scheme: string, token: string, tail: string)
    requires ' ' !in scheme && ' ' !in token && token != ""
    requires tail == [] || tail[0] == ' '
    ensures ExtractToken(Some(scheme + " " + token + tail)) == Some(token)
  {
    assert scheme + " " + token + tail == scheme + " " + (token + tail);
    SplitAfterScheme(scheme, token + tail);
    FirstFieldOf(token, tail);
  }

  /** A header with no space carries no token. */
  lemma NoSpaceNoToken(h: string)
    requires ' ' !in h
    ensures ExtractToken(Some(h)) == None
  {
  }

  /** A scheme followed by a space and then nothing, or by a second space, carries no token (`"Bearer "`). */
  lemma EmptySecondField(scheme: string, tail: string)
    requires ' ' !in scheme && (tail == [] || tail[0] == ' ')
    ensures ExtractToken(Some(scheme + " " + tail)) == None
  {
    SplitAfterScheme(scheme, tail);
    FirstFieldOf("", tail);
    assert "" + tail == tail;
  }

  /** `process.env.JWT_SECRET || 'your-secret-key'`. */
  function JwtSecret(env: Option<string>): (r: string)
    ensures Truthy(env) ==> r == env.value
    ensures !Truthy(env) ==> r == "your-secret-key"
  {
    if Truthy(env) then env.value else "your-secret-key"
  }

  /** The user row the lookup selects. */
  datatype DbUser = DbUser(id: int, email: string, name: Option<string>)

  /** The outcome of looking a user up by id: found, absent, or the lookup threw. */
  datatype Lookup = Found(user: DbUser) | NotFound | LookupFailed

  /** What the middleware attaches to the request. */
  datatype RequestUser = RequestUser(id: int, email: string, name: Option<string>)

  /** What the middleware does with a request: answer it, or attach a user and call `next` once. */
  datatype AuthOutcome = Unauthorized(status: nat, error: string) | Next(user: RequestUser)

  /** The attached user: id and email copied, and a null (or empty) name turned into an absent one. */
  function ToRequestUser(u: DbUser): (r: RequestUser)
    ensures r.id == u.id && r.email == u.email
    ensures r.name.Some? <==> Truthy(u.name)
    ensures r.name.Some? ==> r.name == u.name
  {
    RequestUser(u.id, u.email, if Truthy(u.name) then u.name else None)
  }

  /**
   * `authenticateToken`: `verify` stands for `jwt.verify` (the decoded user id,
   * or `None` when it throws) and `lookup` for the user query.
   */
  function Authenticate(header: Option<string>, secretEnv: Option<string>,
                        verify: (string, string) -> Option<int>, lookup: int -> Lookup): (r: AuthOutcome)
    ensures ExtractToken(header).None? ==> r == Unauthorized(401, "No token provided")
    ensures r.Unauthorized? ==> r.status == 401
    ensures r.Next? <==>
      ExtractToken(header).Some? && verify(ExtractToken(header).value, JwtSecret(secretEnv)).Some?
      && lookup(verify(ExtractToken(header).value, JwtSecret(secretEnv)).value).Found?
    ensures r.Next? ==>
      r.user == ToRequestUser(lookup(verify(ExtractToken(header).value, JwtSecret(secretEnv)).value).user)
    ensures r == Unauthorized(401, "User not found") <==>
      ExtractToken(header).Some? && verify(ExtractToken(header).value, JwtSecret(secretEnv)).Some?
      && lookup(verify(ExtractToken(header).value, JwtSecret(secretEnv)).value).NotFound?
  {
    match ExtractToken(header)
    case None => Unauthorized(401, "No token provided")
    case Some(token) =>
      match verify(token, JwtSecret(secretEnv))
      case None => Unauthorized(401, "Invalid token")
      case Some(userId) =>
        match lookup(userId)
        case LookupFailed => Unauthorized(401, "Invalid token")
        case NotFound => Unauthorized(401, "User not found")
        case Found(u) => Next(ToRequestUser(u))
  }

  /** A request whose token verifies but whose lookup throws, or whose token does not verify, is an invalid token. */
  lemma InvalidTokenCases(header: Option<string>, secretEnv: Option<string>,
                          verify: (string, string) -> Option<int>, lookup: int -> Lookup)
    requires ExtractToken(header).Some?
    ensures var v := verify(ExtractToken(header).value, JwtSecret(secretEnv));
      Authenticate(header, secretEnv, verify, lookup) == Unauthorized(401, "Invalid token")
      <==> v.None? || lookup(v.value).LookupFailed?
  {
  }

  /** The request object as far as the middleware touches it. */
  class Request {
    var authorization: Option<string>
    var user: Option<RequestUser>

    constructor (authorization: Option<string>)
      ensures this.authorization == authorization && user == None
    {
      this.authorization := authorization;
      user := None;
    }

    /** Run the middleware on this request: `req.user` is set exactly when `next` is called. */
    method AuthenticateToken(secretEnv: Option<string>, verify: (string, string) -> Option<int>, lookup: int -> Lookup)
      returns (out: AuthOutcome)
      modifies this
      ensures out == Authenticate(authorization, secretEnv, verify, lookup)
      ensures authorization == old(authorization)
      ensures user == if out.Next? then Some(out.user) else old(user)
    {
      out := Authenticate(authorization, secretEnv, verify, lookup);
      if out.Next? {
        user := Some(out.user);
      }
    }
  }
}
