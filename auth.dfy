/** AuthMiddleware: the guard in front of every protected route. */
module Auth {
  import opened Base
  import opened Http
  import opened GoStrings
  import opened Tokens

  /** A context key: its Go type and its value, so keys of different packages never collide. */
  datatype ContextKey = ContextKey(keyType: string, name: string)

  /** `userKey`, of the package's own type contextKey. */
  const USER_KEY: ContextKey := ContextKey("auth.contextKey", "username")

  const AUTHORIZATION := "Authorization"

  /** The parts of an incoming request the middleware looks at. Header names are canonical. */
  datatype Request = Request(header: map<string, seq<string>>, context: map<ContextKey, string>)

  /** Header.Get: the first value stored under the name, or "" when there is none. */
  function HeaderGet(header: map<string, seq<string>>, name: string): string {
    if name in header && |header[name]| > 0 then header[name][0] else ""
  }

  /** What the middleware does with a request: write a 401 with a message, or call `next`
      once with the request whose context binds the authenticated username. */
  datatype Outcome = Reject(status: int, message: string) | Proceed(request: Request)

  /** The header has the shape `Bearer <token>` with no further space anywhere. */
  predicate BearerForm(header: string) {
    |header| >= 7 && header[..7] == "Bearer " && ' ' !in header[7..]
  }

  /** The token of a header that splits on " " into exactly `Bearer` and one more part. */
  function BearerToken(header: string): Option<string> {
    var parts := Split(header, ' ');
    if |parts| != 2 || parts[0] != "Bearer" then None else Some(parts[1])
  }

  /** The handler AuthMiddleware wraps around `next`, as a decision about one request. */
  function Authenticate(r: Request, verify: TokenVerifier): Outcome {
    var authHeader := HeaderGet(r.header, AUTHORIZATION);
    if authHeader == "" then Reject(STATUS_UNAUTHORIZED, "authorization header is missing")
    else match BearerToken(authHeader)
      case None => Reject(STATUS_UNAUTHORIZED, "invalid authorization header format")
      case Some(tokenString) =>
        match verify(tokenString)
        case Err(e) => Reject(STATUS_UNAUTHORIZED, "invalid or expired token: " + e.message)
        case Ok(claims) =>
          if "username" !in claims || !claims["username"].StringClaim? then
            Reject(STATUS_UNAUTHORIZED, "invalid token claims")
          else
            Proceed(Request(r.header, r.context[USER_KEY := claims["username"].s]))
  }

  /** The response of the wrapped handler: the 401 it writes, or whatever `next` answers. */
  function Serve(r: Request, verify: TokenVerifier, next: Request -> Response): Response {
    match Authenticate(r, verify)
    case Reject(status, message) => Error(message, status)
    case Proceed(request) => next(request)
  }

  /** A header of the Bearer shape splits into `Bearer` and the text after "Bearer ". */
  lemma {:induction false} BearerFormSplits(header: string)
    ensures BearerForm(header) ==> Split(header, ' ') == ["Bearer", header[7..]]
  {
    if BearerForm(header) {
      var t := header[7..];
      assert header == "Bearer" + [' '] + t;
      SplitAfterField("Bearer", ' ', t);
      SplitWithoutSep(t, ' ');
    }
  }

  /** A header that splits into `Bearer` and exactly one more part has the Bearer shape. */
  lemma {:induction false} TwoPartsAreBearerForm(header: string)
    ensures var parts := Split(header, ' ');
            |parts| == 2 && parts[0] == "Bearer" ==> BearerForm(header)
  {
    var parts := Split(header, ' ');
    if |parts| == 2 && parts[0] == "Bearer" {
      JoinSplit(header, ' ');
      SplitPartsLackSep(header, ' ');
      assert header == "Bearer" + [' '] + parts[1];
      assert header[7..] == parts[1];
    }
  }

  /** Splitting on " " yields exactly `Bearer` and one more part iff the header has the
      Bearer shape; the token is then everything after "Bearer ". */
  lemma BearerTokenShape(header: string)
    ensures BearerToken(header) == if BearerForm(header) then Some(header[7..]) else None
  {
    BearerFormSplits(header);
    TwoPartsAreBearerForm(header);
  }

  /** Another scheme is refused. */
  lemma OtherSchemeRefused()
    ensures BearerToken("Basic abc") == None
  {
  }

  /** The scheme is compared case-sensitively. */
  lemma LowerCaseSchemeRefused()
    ensures BearerToken("bearer abc") == None
  {
    BearerTokenShape("bearer abc");
    assert "bearer abc"[..7] != "Bearer ";
  }

  /** A third part is refused. */
  lemma ThirdPartRefused()
    ensures BearerToken("Bearer a b") == None
  {
  }

  /** A doubled space gives three parts and is refused. */
  lemma DoubleSpaceRefused()
    ensures BearerToken("Bearer  x") == None
  {
  }

  /** "Bearer " hands the empty string to the verifier; "Bearer abc" hands it "abc". */
  lemma AcceptedHeaders()
    ensures BearerToken("Bearer ") == Some("")
    ensures BearerToken("Bearer abc") == Some("abc")
  {
    BearerTokenShape("Bearer ");
    assert "Bearer "[..7] == "Bearer ";
    BearerTokenShape("Bearer abc");
    assert "Bearer abc"[..7] == "Bearer ";
    assert "Bearer abc"[7..] == "abc";
  }

  /** Without an Authorization value the request is refused and `next` is not called. */
  lemma MissingHeaderRejected(r: Request, verify: TokenVerifier)
    requires HeaderGet(r.header, AUTHORIZATION) == ""
    ensures Authenticate(r, verify) == Reject(401, "authorization header is missing")
  {
  }

  /** A present header that is not `Bearer <token>` is refused before any verification. */
  lemma MalformedHeaderRejected(r: Request, verify: TokenVerifier)
    requires HeaderGet(r.header, AUTHORIZATION) != ""
    requires !BearerForm(HeaderGet(r.header, AUTHORIZATION))
    ensures Authenticate(r, verify) == Reject(401, "invalid authorization header format")
  {
    BearerTokenShape(HeaderGet(r.header, AUTHORIZATION));
  }

  /** The verifier is consulted on exactly the text after "Bearer " and on nothing else:
      two verifiers that agree there (or a header that never reaches verification) give the
      same outcome. */
  lemma OnlyTheTokenIsVerified(r: Request, v1: TokenVerifier, v2: TokenVerifier)
    requires var h := HeaderGet(r.header, AUTHORIZATION);
             h != "" && BearerForm(h) ==> v1(h[7..]) == v2(h[7..])
    ensures Authenticate(r, v1) == Authenticate(r, v2)
  {
    BearerTokenShape(HeaderGet(r.header, AUTHORIZATION));
  }

  /** A token the verifier refuses gives 401 with the verifier's reason appended. */
  lemma VerifyFailureRejected(r: Request, verify: TokenVerifier)
    requires BearerForm(HeaderGet(r.header, AUTHORIZATION))
    requires verify(HeaderGet(r.header, AUTHORIZATION)[7..]).Err?
    ensures Authenticate(r, verify)
         == Reject(401, "invalid or expired token: "
                        + verify(HeaderGet(r.header, AUTHORIZATION)[7..]).error.message)
  {
    BearerTokenShape(HeaderGet(r.header, AUTHORIZATION));
  }

  /** Verified claims without a string `username` give 401 "invalid token claims". */
  lemma BadClaimsRejected(r: Request, verify: TokenVerifier)
    requires BearerForm(HeaderGet(r.header, AUTHORIZATION))
    requires var v := verify(HeaderGet(r.header, AUTHORIZATION)[7..]);
             v.Ok? && ("username" !in v.value || !v.value["username"].StringClaim?)
    ensures Authenticate(r, verify) == Reject(401, "invalid token claims")
  {
    BearerTokenShape(HeaderGet(r.header, AUTHORIZATION));
  }

  /** `next` runs exactly when the header is `Bearer <token>`, the token verifies and its
      `username` claim is a string; it then sees the same headers and the old context with
      USER_KEY bound to that username. Every other request is answered with 401. */
  lemma ProceedExactlyWhenAuthenticated(r: Request, verify: TokenVerifier)
    ensures var h := HeaderGet(r.header, AUTHORIZATION);
            Authenticate(r, verify).Proceed? <==>
              BearerForm(h) && verify(h[7..]).Ok? && "username" in verify(h[7..]).value
              && verify(h[7..]).value["username"].StringClaim?
    ensures var h := HeaderGet(r.header, AUTHORIZATION);
            Authenticate(r, verify).Proceed? ==>
              Authenticate(r, verify).request
              == Request(r.header, r.context[USER_KEY := verify(h[7..]).value["username"].s])
    ensures Authenticate(r, verify).Reject? ==> Authenticate(r, verify).status == 401
  {
    var h := HeaderGet(r.header, AUTHORIZATION);
    BearerTokenShape(h);
    assert BearerForm(h) ==> h != "";
  }

  /** Every request either gets the 401 text response, with `next` never consulted, or gets
      exactly what `next` answers for the authenticated request. */
  lemma ServeOneOfTwo(r: Request, verify: TokenVerifier, next1: Request -> Response,
                      next2: Request -> Response)
    ensures Authenticate(r, verify).Reject? ==>
              Serve(r, verify, next1) == Serve(r, verify, next2)
              && Serve(r, verify, next1) == Error(Authenticate(r, verify).message, 401)
    ensures Authenticate(r, verify).Proceed? ==>
              Serve(r, verify, next1) == next1(Authenticate(r, verify).request)
  {
  }
}
