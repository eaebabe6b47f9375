/** The registration and login handlers (internal/auth/handler.go). */
module Handlers {
  import opened Base
  import opened Http
  import opened Validator
  import opened Tokens
  import opened Users

  /** A request body after JSON decoding: an object of string members, or None when the
      decoder refuses it. */
  type RequestBody = Option<map<string, string>>

  datatype RegisterUserPayload = RegisterUserPayload(username: string, password: string, role: string)

  datatype LoginUserPayload = LoginUserPayload(username: string, password: string)

  /** A member of the decoded object; an absent member keeps the field's zero value "". */
  function Member(members: map<string, string>, key: string): string {
    if key in members then members[key] else ""
  }

  function DecodeRegister(body: RequestBody): Option<RegisterUserPayload> {
    match body
    case None => None
    case Some(m) => Some(RegisterUserPayload(Member(m, "username"), Member(m, "password"), Member(m, "role")))
  }

  function DecodeLogin(body: RequestBody): Option<LoginUserPayload> {
    match body
    case None => None
    case Some(m) => Some(LoginUserPayload(Member(m, "username"), Member(m, "password")))
  }

  const ROLES: seq<string> := ["student", "dispatcher", "admin"]

  /** The struct tags of RegisterUserPayload. */
  function RegisterFields(p: RegisterUserPayload): seq<Field> {
    [ Field("Username", p.username, [Required, Max(100)]),
      Field("Password", p.password, [Required, Min(3), Max(72)]),
      Field("Role", p.role, [OmitEmpty, OneOf(ROLES)]) ]
  }

  /** The struct tags of LoginUserPayload. */
  function LoginFields(p: LoginUserPayload): seq<Field> {
    [ Field("Username", p.username, [Required]),
      Field("Password", p.password, [Required]) ]
  }

  /** The registration rules in words: a username of 1 to 100 characters, a password of 3 to
      72 characters, and a role that is empty or one of the three role names. */
  predicate ValidRegistration(p: RegisterUserPayload) {
    && 0 < |p.username| <= 100
    && 3 <= |p.password| <= 72
    && (p.role == "" || p.role == "student" || p.role == "dispatcher" || p.role == "admin")
  }

  /** The login rules in words: both fields present. */
  predicate ValidLogin(p: LoginUserPayload) {
    p.username != "" && p.password != ""
  }

  /** The username tags refuse nothing exactly when the username has 1 to 100 characters. */
  lemma UsernameTags(p: RegisterUserPayload)
    ensures FieldErrors(RegisterFields(p)[0]) == [] <==> 0 < |p.username| <= 100
  {
    assert [Required, Max(100)][1..] == [Max(100)] && [Max(100)][1..] == [];
  }

  /** The password tags refuse nothing exactly when the password has 3 to 72 characters. */
  lemma PasswordTags(p: RegisterUserPayload)
    ensures FieldErrors(RegisterFields(p)[1]) == [] <==> 3 <= |p.password| <= 72
  {
    var rules := [Required, Min(3), Max(72)];
    assert rules[1..] == [Min(3), Max(72)] && rules[1..][1..] == [Max(72)] && rules[1..][1..][1..] == [];
  }

  /** The role tags refuse nothing exactly when the role is empty or one of the role names. */
  lemma RoleTags(p: RegisterUserPayload)
    ensures FieldErrors(RegisterFields(p)[2]) == [] <==> p.role == "" || p.role in ROLES
  {
    var rules := [OmitEmpty, OneOf(ROLES)];
    if p.role != "" {
      assert rules[1..] == [OneOf(ROLES)] && [OneOf(ROLES)][1..] == [];
      assert FirstFailure(p.role, rules) == FirstFailure(p.role, [OneOf(ROLES)]);
      assert FirstFailure(p.role, [OneOf(ROLES)]) == if p.role in ROLES then None else Some(OneOf(ROLES));
    }
  }

  /** The tags accept a registration payload exactly when the rules in words hold. */
  lemma RegisterValidation(p: RegisterUserPayload)
    ensures ValidateStruct(RegisterFields(p)) == [] <==> ValidRegistration(p)
  {
    ValidateStructEmpty(RegisterFields(p));
    UsernameTags(p);
    PasswordTags(p);
    RoleTags(p);
  }

  /** The tags accept a login payload exactly when both fields are non-empty. */
  lemma LoginValidation(p: LoginUserPayload)
    ensures ValidateStruct(LoginFields(p)) == [] <==> ValidLogin(p)
  {
  }

  /** With a good username and no role, a password passes exactly when it has 3 to 72
      characters: 2 and 73 fail, 3 and 72 pass. */
  lemma PasswordLengthBounds(p: RegisterUserPayload)
    requires 0 < |p.username| <= 100 && p.role == ""
    ensures ValidateStruct(RegisterFields(p)) == [] <==> 3 <= |p.password| <= 72
  {
    RegisterValidation(p);
  }

  /** A role outside the enumeration fails validation, whatever the other fields are. */
  lemma UnknownRoleRejected(p: RegisterUserPayload)
    requires p.role !in ["", "student", "dispatcher", "admin"]
    ensures ValidateStruct(RegisterFields(p)) != []
  {
    RegisterValidation(p);
  }

  /** writeErrorResponse: a JSON object {"error": message}. */
  function ErrorResponse(message: string, status: int): Response {
    Response(status, JsonBody(JObject([("error", JString(message))])))
  }

  /** writeJSONResponse. */
  function JsonResponse(data: Json, status: int): Response {
    Response(status, JsonBody(data))
  }

  /** AuthResponse: the user, and the token unless it is empty (`omitempty`). */
  function AuthResponse(user: Json, token: string): Json {
    JObject([("user", user)] + if token == "" then [] else [("token", JString(token))])
  }

  /** The response of one registration and the user table afterwards. */
  datatype RegisterRun = RegisterRun(response: Response, rows: map<string, Row>)

  /** RegisterUser's stages in order: decode, validate, hash, insert, issue a token, respond.
      The first stage that fails decides the response. */
  function Register(rows: map<string, Row>, body: RequestBody, bcrypt: Bcrypt, salt: seq<byte>,
                    issue: TokenIssuer, id: Uuid, now: Time, fault: Option<string>): RegisterRun
  {
    match DecodeRegister(body)
    case None => RegisterRun(Error("invalid request body", STATUS_BAD_REQUEST), rows)
    case Some(p) =>
      var errs := ValidateStruct(RegisterFields(p));
      if errs != [] then
        RegisterRun(Error("validation failed: " + ErrorsText("RegisterUserPayload", errs),
                          STATUS_BAD_REQUEST), rows)
      else match bcrypt.generate(p.password, salt)
        case Err(_) => RegisterRun(Error("failed to process password", STATUS_INTERNAL_SERVER_ERROR), rows)
        case Ok(hash) =>
          match InsertError(rows, p.username, fault)
          case Some(e) =>
            RegisterRun(Error("failed to create user: " + ErrorText(e), STATUS_INTERNAL_SERVER_ERROR), rows)
          case None =>
            var stored := rows[p.username := Row(id, p.username, hash, p.role, now)];
            match issue(p.username)
            case Err(_) => RegisterRun(Error("failed to generate token", STATUS_INTERNAL_SERVER_ERROR), stored)
            case Ok(token) =>
              RegisterRun(JsonResponse(AuthResponse(UserJson(id, p.username, p.role, now), token),
                                       STATUS_CREATED), stored)
  }

  /** LoginUser's stages in order: decode, validate, look up, compare, issue a token, respond. */
  function Login(body: RequestBody, lookup: string -> Result<Row, StoreError>, bcrypt: Bcrypt,
                 issue: TokenIssuer): Response
  {
    match DecodeLogin(body)
    case None => ErrorResponse("invalid request body", STATUS_BAD_REQUEST)
    case Some(p) =>
      var errs := ValidateStruct(LoginFields(p));
      if errs != [] then
        ErrorResponse("validation failed: " + ErrorsText("LoginUserPayload", errs), STATUS_BAD_REQUEST)
      else match lookup(p.username)
        case Err(_) => ErrorResponse("invalid credentials", STATUS_UNAUTHORIZED)
        case Ok(row) =>
          if !bcrypt.compare(row.passwordHash, p.password) then
            ErrorResponse("invalid credentials", STATUS_UNAUTHORIZED)
          else match issue(row.username)
            case Err(_) => ErrorResponse("failed to generate token", STATUS_INTERNAL_SERVER_ERROR)
            case Ok(token) =>
              JsonResponse(AuthResponse(UserJson(row.id, row.username, row.role, row.createdAt), token),
                           STATUS_OK)
  }

  /** Registration answers 400 exactly when the body does not decode or the payload breaks
      a rule, and a 400 leaves the table as it was. */
  lemma RegisterBadRequest(rows: map<string, Row>, body: RequestBody, bcrypt: Bcrypt, salt: seq<byte>,
                           issue: TokenIssuer, id: Uuid, now: Time, fault: Option<string>)
    ensures var run := Register(rows, body, bcrypt, salt, issue, id, now, fault);
            run.response.status == 400 <==>
              DecodeRegister(body).None? || !ValidRegistration(DecodeRegister(body).value)
    ensures var run := Register(rows, body, bcrypt, salt, issue, id, now, fault);
            run.response.status == 400 ==> run.rows == rows
  {
    if DecodeRegister(body).Some? {
      RegisterValidation(DecodeRegister(body).value);
    }
  }

  /** Registration answers 201, 400 or 500, and 201 exactly when every stage succeeds: the
      payload is valid, hashing works, the insert is accepted and a token is issued. A
      duplicate username is one of the 500s. */
  lemma RegisterStatuses(rows: map<string, Row>, body: RequestBody, bcrypt: Bcrypt, salt: seq<byte>,
                         issue: TokenIssuer, id: Uuid, now: Time, fault: Option<string>)
    ensures var status := Register(rows, body, bcrypt, salt, issue, id, now, fault).response.status;
            status == 201 || status == 400 || status == 500
    ensures var status := Register(rows, body, bcrypt, salt, issue, id, now, fault).response.status;
            status == 201 <==>
              && DecodeRegister(body).Some?
              && var p := DecodeRegister(body).value;
              && ValidRegistration(p)
              && bcrypt.generate(p.password, salt).Ok?
              && InsertError(rows, p.username, fault) == None
              && issue(p.username).Ok?
  {
    if DecodeRegister(body).Some? {
      RegisterValidation(DecodeRegister(body).value);
    }
  }

  /** The table changes only after validation and hashing have succeeded and the insert was
      accepted, and then gains exactly the new user's row, carrying the hash and not the
      plaintext. This holds even when the token stage fails afterwards. */
  lemma RegisterStoresOnlyAfterHashing(rows: map<string, Row>, body: RequestBody, bcrypt: Bcrypt,
                                       salt: seq<byte>, issue: TokenIssuer, id: Uuid, now: Time,
                                       fault: Option<string>)
    ensures var run := Register(rows, body, bcrypt, salt, issue, id, now, fault);
            run.rows == rows ||
              (&& DecodeRegister(body).Some?
               && var p := DecodeRegister(body).value;
               && ValidRegistration(p)
               && bcrypt.generate(p.password, salt).Ok?
               && InsertError(rows, p.username, fault) == None
               && run.rows == rows[p.username := Row(id, p.username, bcrypt.generate(p.password, salt).value,
                                                    p.role, now)])
  {
    if DecodeRegister(body).Some? {
      RegisterValidation(DecodeRegister(body).value);
    }
  }

  /** Once validation and hashing succeed and the insert is accepted, the new row is stored,
      whether or not a token is issued afterwards. */
  lemma RegisterStoresAfterInsert(rows: map<string, Row>, body: RequestBody, bcrypt: Bcrypt,
                                  salt: seq<byte>, issue: TokenIssuer, id: Uuid, now: Time,
                                  fault: Option<string>)
    requires DecodeRegister(body).Some?
    requires var p := DecodeRegister(body).value;
             ValidRegistration(p) && bcrypt.generate(p.password, salt).Ok?
             && InsertError(rows, p.username, fault) == None
    ensures var p := DecodeRegister(body).value;
            Register(rows, body, bcrypt, salt, issue, id, now, fault).rows
            == rows[p.username := Row(id, p.username, bcrypt.generate(p.password, salt).value, p.role, now)]
  {
    RegisterValidation(DecodeRegister(body).value);
  }

  /** Nothing after a failed decode, validation or hash is consulted: neither the store and
      its faults, nor the assigned id and time, nor the token issuer changes the outcome. */
  lemma RegisterStopsBeforeCreate(rows: map<string, Row>, body: RequestBody, bcrypt: Bcrypt,
                                  salt: seq<byte>, issue1: TokenIssuer, issue2: TokenIssuer,
                                  id1: Uuid, id2: Uuid, now1: Time, now2: Time,
                                  fault1: Option<string>, fault2: Option<string>)
    requires || DecodeRegister(body).None?
             || !ValidRegistration(DecodeRegister(body).value)
             || bcrypt.generate(DecodeRegister(body).value.password, salt).Err?
    ensures Register(rows, body, bcrypt, salt, issue1, id1, now1, fault1)
         == Register(rows, body, bcrypt, salt, issue2, id2, now2, fault2)
  {
    if DecodeRegister(body).Some? {
      RegisterValidation(DecodeRegister(body).value);
    }
  }

  /** The token issuer is consulted only after the insert succeeded: when the insert fails,
      any two issuers give the same outcome. */
  lemma RegisterIssuesOnlyAfterCreate(rows: map<string, Row>, body: RequestBody, bcrypt: Bcrypt,
                                      salt: seq<byte>, issue1: TokenIssuer, issue2: TokenIssuer,
                                      id: Uuid, now: Time, fault: Option<string>)
    requires DecodeRegister(body).Some?
    requires InsertError(rows, DecodeRegister(body).value.username, fault) != None
    ensures Register(rows, body, bcrypt, salt, issue1, id, now, fault)
         == Register(rows, body, bcrypt, salt, issue2, id, now, fault)
  {
  }

  /** A 201 carries a token issued for the payload's username, and the user as stored: the
      assigned id and time, the payload's username and role, and no password. */
  lemma RegisterSuccess(rows: map<string, Row>, body: RequestBody, bcrypt: Bcrypt, salt: seq<byte>,
                        issue: TokenIssuer, id: Uuid, now: Time, fault: Option<string>)
    requires Register(rows, body, bcrypt, salt, issue, id, now, fault).response.status == 201
    ensures DecodeRegister(body).Some?
    ensures var p := DecodeRegister(body).value;
            var run := Register(rows, body, bcrypt, salt, issue, id, now, fault);
            && issue(p.username).Ok?
            && run.response.body == JsonBody(AuthResponse(UserJson(id, p.username, p.role, now),
                                                          issue(p.username).value))
            && p.username in run.rows
            && run.rows[p.username] == Row(id, p.username, bcrypt.generate(p.password, salt).value, p.role, now)
  {
  }

  /** A body without a role registers a user whose stored and returned role is "". */
  lemma OmittedRoleIsEmpty(rows: map<string, Row>, body: RequestBody, bcrypt: Bcrypt, salt: seq<byte>,
                           issue: TokenIssuer, id: Uuid, now: Time, fault: Option<string>)
    requires body.Some? && "role" !in body.value
    requires Register(rows, body, bcrypt, salt, issue, id, now, fault).response.status == 201
    ensures var run := Register(rows, body, bcrypt, salt, issue, id, now, fault);
            var name := Member(body.value, "username");
            name in run.rows && run.rows[name].role == ""
  {
  }

  /** A username that is already stored gets 500, with the table unchanged. */
  lemma DuplicateUsernameIsServerError(rows: map<string, Row>, body: RequestBody, bcrypt: Bcrypt,
                                       salt: seq<byte>, issue: TokenIssuer, id: Uuid, now: Time,
                                       fault: Option<string>)
    requires DecodeRegister(body).Some? && DecodeRegister(body).value.username in rows
    requires ValidRegistration(DecodeRegister(body).value)
    ensures var run := Register(rows, body, bcrypt, salt, issue, id, now, fault);
            run.response.status == 500 && run.rows == rows
  {
    RegisterValidation(DecodeRegister(body).value);
  }

  /** Registering the same body twice: the second attempt never succeeds and stores nothing. */
  lemma SecondRegistrationFails(rows: map<string, Row>, body: RequestBody, bcrypt: Bcrypt,
                                salt1: seq<byte>, salt2: seq<byte>, issue1: TokenIssuer,
                                issue2: TokenIssuer, id1: Uuid, id2: Uuid, now1: Time, now2: Time,
                                fault1: Option<string>, fault2: Option<string>)
    requires Register(rows, body, bcrypt, salt1, issue1, id1, now1, fault1).response.status == 201
    ensures var first := Register(rows, body, bcrypt, salt1, issue1, id1, now1, fault1);
            var second := Register(first.rows, body, bcrypt, salt2, issue2, id2, now2, fault2);
            second.response.status == 500 && second.rows == first.rows
  {
  }

  /** The registration response does not depend on the hash bytes: two hash functions that
      succeed or fail together give the same response. */
  lemma RegisterResponseHidesHash(rows: map<string, Row>, body: RequestBody, bcrypt1: Bcrypt,
                                  bcrypt2: Bcrypt, salt: seq<byte>, issue: TokenIssuer, id: Uuid,
                                  now: Time, fault: Option<string>)
    requires DecodeRegister(body).Some? ==>
               var pw := DecodeRegister(body).value.password;
               bcrypt1.generate(pw, salt).Ok? == bcrypt2.generate(pw, salt).Ok?
    ensures Register(rows, body, bcrypt1, salt, issue, id, now, fault).response
         == Register(rows, body, bcrypt2, salt, issue, id, now, fault).response
  {
  }

  /** Login answers 400 exactly when the body does not decode or a field is empty. */
  lemma LoginBadRequest(body: RequestBody, lookup: string -> Result<Row, StoreError>, bcrypt: Bcrypt,
                        issue: TokenIssuer)
    ensures Login(body, lookup, bcrypt, issue).status == 400 <==>
              DecodeLogin(body).None? || !ValidLogin(DecodeLogin(body).value)
  {
    if DecodeLogin(body).Some? {
      LoginValidation(DecodeLogin(body).value);
    }
  }

  /** An unknown user (or any lookup error) and a wrong password give the very same
      response: 401 with {"error": "invalid credentials"}. */
  lemma LoginDoesNotRevealUsernames(body: RequestBody, lookup1: string -> Result<Row, StoreError>,
                                    lookup2: string -> Result<Row, StoreError>, bcrypt: Bcrypt,
                                    issue: TokenIssuer)
    requires DecodeLogin(body).Some? && ValidLogin(DecodeLogin(body).value)
    requires lookup1(DecodeLogin(body).value.username).Err?
    requires var p := DecodeLogin(body).value;
             lookup2(p.username).Ok? && !bcrypt.compare(lookup2(p.username).value.passwordHash, p.password)
    ensures Login(body, lookup1, bcrypt, issue) == Login(body, lookup2, bcrypt, issue)
    ensures Login(body, lookup1, bcrypt, issue) == ErrorResponse("invalid credentials", 401)
  {
  }

  /** Login answers 200 exactly when the payload is valid, the user is found, the password
      matches and a token is issued; the token is issued for the stored username and the
      body carries the stored user and that token. */
  lemma LoginSuccess(body: RequestBody, lookup: string -> Result<Row, StoreError>, bcrypt: Bcrypt,
                     issue: TokenIssuer)
    ensures Login(body, lookup, bcrypt, issue).status == 200 <==>
              && DecodeLogin(body).Some?
              && var p := DecodeLogin(body).value;
              && ValidLogin(p)
              && lookup(p.username).Ok?
              && bcrypt.compare(lookup(p.username).value.passwordHash, p.password)
              && issue(lookup(p.username).value.username).Ok?
    ensures Login(body, lookup, bcrypt, issue).status == 200 ==>
              var row := lookup(DecodeLogin(body).value.username).value;
              Login(body, lookup, bcrypt, issue).body
              == JsonBody(AuthResponse(UserJson(row.id, row.username, row.role, row.createdAt),
                                       issue(row.username).value))
  {
    if DecodeLogin(body).Some? {
      LoginValidation(DecodeLogin(body).value);
    }
  }

  /** A matching password whose token cannot be issued gives 500. */
  lemma LoginTokenFailure(body: RequestBody, lookup: string -> Result<Row, StoreError>, bcrypt: Bcrypt,
                          issue: TokenIssuer)
    requires DecodeLogin(body).Some? && ValidLogin(DecodeLogin(body).value)
    requires var p := DecodeLogin(body).value;
             lookup(p.username).Ok? && bcrypt.compare(lookup(p.username).value.passwordHash, p.password)
             && issue(lookup(p.username).value.username).Err?
    ensures Login(body, lookup, bcrypt, issue) == ErrorResponse("failed to generate token", 500)
  {
  }

  /** The login response depends on the stored hash only through the comparator's verdict. */
  lemma LoginResponseHidesHash(body: RequestBody, lookup1: string -> Result<Row, StoreError>,
                               lookup2: string -> Result<Row, StoreError>, bcrypt: Bcrypt,
                               issue: TokenIssuer)
    requires DecodeLogin(body).Some?
    requires var p := DecodeLogin(body).value;
             match lookup1(p.username)
             case Err(_) => lookup2(p.username).Err?
             case Ok(r1) =>
               lookup2(p.username).Ok? &&
               var r2 := lookup2(p.username).value;
               r2 == r1.(passwordHash := r2.passwordHash)
               && bcrypt.compare(r1.passwordHash, p.password) == bcrypt.compare(r2.passwordHash, p.password)
    ensures Login(body, lookup1, bcrypt, issue) == Login(body, lookup2, bcrypt, issue)
  {
  }

  /** Under bcrypt's promise, a user who registered can log in with the same username and
      password, provided the store does not fail and a token can be issued. */
  lemma RegisteredUserCanLogIn(rows: map<string, Row>, body: RequestBody, bcrypt: Bcrypt, salt: seq<byte>,
                               issue: TokenIssuer, id: Uuid, now: Time, fault: Option<string>)
    requires RoundTrip(bcrypt)
    requires Register(rows, body, bcrypt, salt, issue, id, now, fault).response.status == 201
    ensures var run := Register(rows, body, bcrypt, salt, issue, id, now, fault);
            var stored := run.rows;
            Login(body, u => Lookup(stored, u, None), bcrypt, issue).status == 200
  {
    var run := Register(rows, body, bcrypt, salt, issue, id, now, fault);
    RegisterSuccess(rows, body, bcrypt, salt, issue, id, now, fault);
    RegisterStatuses(rows, body, bcrypt, salt, issue, id, now, fault);
    var p := DecodeRegister(body).value;
    RegisterValidation(p);
    var q := DecodeLogin(body).value;
    assert q.username == p.username && q.password == p.password;
    LoginValidation(q);
    var stored := run.rows;
    LoginSuccess(body, u => Lookup(stored, u, None), bcrypt, issue);
  }

  /** With the lookup as written, login never succeeds: every attempt ends in 400 or 401. */
  lemma LoginAsWrittenNeverSucceeds(rows: map<string, Row>, body: RequestBody, bcrypt: Bcrypt,
                                    issue: TokenIssuer, fault: Option<string>)
    ensures var status := Login(body, u => LookupAsWritten(rows, u, fault), bcrypt, issue).status;
            status == 400 || status == 401
  {
  }

  /** Handler: the two HTTP handlers over one user store. */
  class Handler {
    const userService: UserStore

    constructor (userService: UserStore)
      ensures this.userService == userService
    {
      this.userService := userService;
    }

    method RegisterUser(body: RequestBody, bcrypt: Bcrypt, salt: seq<byte>, issue: TokenIssuer,
                        id: Uuid, now: Time, fault: Option<string>)
      returns (resp: Response)
      requires userService.Valid()
      modifies userService
      ensures userService.Valid()
      ensures var run := Register(old(userService.rows), body, bcrypt, salt, issue, id, now, fault);
              resp == run.response && userService.rows == run.rows
    {
      var decoded := DecodeRegister(body);
      if decoded.None? {
        return Error("invalid request body", STATUS_BAD_REQUEST);
      }
      var payload := decoded.value;
      var errs := ValidateStruct(RegisterFields(payload));
      if errs != [] {
        return Error("validation failed: " + ErrorsText("RegisterUserPayload", errs), STATUS_BAD_REQUEST);
      }
      var user := new User(payload.username, payload.role);
      var hashErr := user.password.SetHash(payload.password, bcrypt, salt);
      if hashErr.Some? {
        return Error("failed to process password", STATUS_INTERNAL_SERVER_ERROR);
      }
      var createErr := userService.Create(user, id, now, fault);
      if createErr.Some? {
        return Error("failed to create user: " + ErrorText(createErr.value), STATUS_INTERNAL_SERVER_ERROR);
      }
      var token := issue(user.username);
      if token.Err? {
        return Error("failed to generate token", STATUS_INTERNAL_SERVER_ERROR);
      }
      resp := JsonResponse(AuthResponse(user.ToJson(), token.value), STATUS_CREATED);
    }

    method LoginUser(body: RequestBody, bcrypt: Bcrypt, issue: TokenIssuer, fault: Option<string>)
      returns (resp: Response)
      requires userService.Valid()
      ensures var rows := userService.rows;
              resp == Login(body, u => Lookup(rows, u, fault), bcrypt, issue)
    {
      var decoded := DecodeLogin(body);
      if decoded.None? {
        return ErrorResponse("invalid request body", STATUS_BAD_REQUEST);
      }
      var payload := decoded.value;
      var errs := ValidateStruct(LoginFields(payload));
      if errs != [] {
        return ErrorResponse("validation failed: " + ErrorsText("LoginUserPayload", errs), STATUS_BAD_REQUEST);
      }
      var user, err := userService.GetByUsername(payload.username, fault);
      if err.Some? {
        return ErrorResponse("invalid credentials", STATUS_UNAUTHORIZED);
      }
      var matched := user.password.CompareHash(payload.password, bcrypt);
      if !matched {
        return ErrorResponse("invalid credentials", STATUS_UNAUTHORIZED);
      }
      var token := issue(user.username);
      if token.Err? {
        return ErrorResponse("failed to generate token", STATUS_INTERNAL_SERVER_ERROR);
      }
      resp := JsonResponse(AuthResponse(user.ToJson(), token.value), STATUS_OK);
    }
  }
}
