/** The user record, its password credential and the user store (internal/auth/users.go). */
module Users {
  import opened Base
  import opened Http

  /** The bcrypt calls the package makes, taken as given functions. GenerateFromPassword is
      randomised, so the salt it draws is an explicit input; it may fail. */
  datatype Bcrypt = Bcrypt(
    generate: (string, seq<byte>) -> Result<seq<byte>, HashError>,
    compare: (seq<byte>, string) -> bool)

  datatype HashError = HashError(message: string)

  /** bcrypt's own promise (not the repository's): a password matches every hash made from it. */
  ghost predicate RoundTrip(bcrypt: Bcrypt) {
    forall text, salt :: bcrypt.generate(text, salt).Ok? ==>
      bcrypt.compare(bcrypt.generate(text, salt).value, text)
  }

  /** Password: the plaintext it was last set from (nil at first) and the bcrypt hash. */
  class Password {
    var text: Option<string>
    var hash: seq<byte>

    constructor ()
      ensures text == None && hash == []
    {
      text := None;
      hash := [];
    }

    /** Hash t; only a successful hash replaces the text and the hash. */
    method SetHash(t: string, bcrypt: Bcrypt, salt: seq<byte>) returns (err: Option<HashError>)
      modifies this
      ensures bcrypt.generate(t, salt).Ok? ==>
                err == None && text == Some(t) && hash == bcrypt.generate(t, salt).value
      ensures bcrypt.generate(t, salt).Err? ==>
                err == Some(bcrypt.generate(t, salt).error)
                && text == old(text) && hash == old(hash)
    {
      var generated := bcrypt.generate(t, salt);
      if generated.Err? {
        return Some(generated.error);
      }
      text := Some(t);
      hash := generated.value;
      err := None;
    }

    /** The comparator's verdict on the stored hash and t; nothing is changed. */
    method CompareHash(t: string, bcrypt: Bcrypt) returns (matched: bool)
      ensures matched == bcrypt.compare(hash, t)
    {
      matched := bcrypt.compare(hash, t);
    }
  }

  /** Under bcrypt's promise, a password that was set successfully compares equal to itself. */
  method SetHashThenCompare(p: Password, t: string, bcrypt: Bcrypt, salt: seq<byte>)
    returns (err: Option<HashError>, matched: bool)
    requires RoundTrip(bcrypt)
    modifies p
    ensures err == None ==> matched
    ensures err != None ==> p.hash == old(p.hash) && p.text == old(p.text)
  {
    err := p.SetHash(t, bcrypt, salt);
    matched := p.CompareHash(t, bcrypt);
  }

  /** The JSON form of a user: the tagged fields in declaration order. The password is
      tagged `json:"-"`, so it is not an input here at all. */
  function UserJson(id: Uuid, username: string, role: string, createdAt: Time): (j: Json)
    ensures Keys(j) == ["id", "username", "role", "created_at"]
    ensures "password" !in Keys(j)
  {
    JObject([("id", JUuid(id)), ("username", JString(username)), ("role", JString(role)),
             ("created_at", JTime(createdAt))])
  }

  /** User. The Password is held by value in Go, so here it is one object for life. */
  class User {
    var id: Uuid
    var username: string
    const password: Password
    var role: string
    var createdAt: Time

    /** The literal `&User{Username: ..., Role: ...}`: every other field at its zero value. */
    constructor (username: string, role: string)
      ensures this.username == username && this.role == role
      ensures id == NIL_UUID && createdAt == ZERO_TIME
      ensures fresh(password) && password.text == None && password.hash == []
    {
      id := NIL_UUID;
      this.username := username;
      password := new Password();
      this.role := role;
      createdAt := ZERO_TIME;
    }

    /** What encoding/json writes for the user; it never reads the password object. */
    function ToJson(): Json
      reads this
    {
      UserJson(id, username, role, createdAt)
    }
  }

  /** Two users that differ at most in their passwords serialise identically. */
  lemma JsonIgnoresPassword(a: User, b: User)
    requires a.id == b.id && a.username == b.username && a.role == b.role
    requires a.createdAt == b.createdAt
    ensures a.ToJson() == b.ToJson()
  {
  }

  /** A row of the users table: the hash is stored, never the plaintext. */
  datatype Row = Row(id: Uuid, username: string, passwordHash: seq<byte>, role: string,
                     createdAt: Time)

  datatype StoreError = DuplicateUsername | NotFound | PersistenceFailure(message: string)

  /** The error text a store error carries. */
  function ErrorText(e: StoreError): string {
    match e
    case DuplicateUsername => "duplicate key value violates unique constraint"
    case NotFound => "sql: no rows in result set"
    case PersistenceFailure(message) => message
  }

  /** Why an INSERT of username fails: a backend fault (timeout, lost connection), or the
      unique constraint on username. */
  function InsertError(rows: map<string, Row>, username: string, fault: Option<string>)
    : (e: Option<StoreError>)
    ensures e == None <==> fault == None && username !in rows
    ensures fault == None && username in rows ==> e == Some(DuplicateUsername)
  {
    if fault.Some? then Some(PersistenceFailure(fault.value))
    else if username in rows then Some(DuplicateUsername)
    else None
  }

  /** The row a lookup by username finds, or why it finds none. */
  function Lookup(rows: map<string, Row>, username: string, fault: Option<string>)
    : (r: Result<Row, StoreError>)
    ensures r.Ok? <==> fault == None && username in rows
    ensures r.Ok? ==> r.value == rows[username]
    ensures fault == None && username !in rows ==> r == Err(NotFound)
  {
    if fault.Some? then Err(PersistenceFailure(fault.value))
    else if username !in rows then Err(NotFound)
    else Ok(rows[username])
  }

  /** UserStore, the implementation of UserService, over an in-memory table keyed by the
      unique username. */
  class UserStore {
    var rows: map<string, Row>

    ghost predicate Valid()
      reads this
    {
      forall name :: name in rows ==> rows[name].username == name
    }

    constructor ()
      ensures Valid() && rows == map[]
    {
      rows := map[];
    }

    /** Insert the user's username, hash and role; on success write the id and creation
        time the database assigned into the user, and change nothing else. */
    method Create(user: User, id: Uuid, now: Time, fault: Option<string>)
      returns (err: Option<StoreError>)
      requires Valid()
      modifies this, user
      ensures Valid()
      ensures err == InsertError(old(rows), user.username, fault)
      ensures err == None ==>
                rows == old(rows)[user.username := Row(id, user.username, user.password.hash,
                                                       user.role, now)]
                && user.id == id && user.createdAt == now
      ensures err != None ==>
                rows == old(rows) && user.id == old(user.id) && user.createdAt == old(user.createdAt)
      ensures user.username == old(user.username) && user.role == old(user.role)
    {
      err := InsertError(rows, user.username, fault);
      if err == None {
        rows := rows[user.username := Row(id, user.username, user.password.hash, user.role, now)];
        user.id := id;
        user.createdAt := now;
      }
    }

    /** The stored user of that name as a new object, or nil and the error. */
    method GetByUsername(username: string, fault: Option<string>)
      returns (user: User?, err: Option<StoreError>)
      requires Valid()
      ensures user == null <==> err != None
      ensures match Lookup(rows, username, fault)
              case Err(e) => err == Some(e)
              case Ok(row) =>
                user != null && fresh(user) && user.id == row.id && user.username == row.username
                && user.password.hash == row.passwordHash && user.password.text == None
                && user.role == row.role && user.createdAt == row.createdAt
    {
      var found := Lookup(rows, username, fault);
      if found.Err? {
        return null, Some(found.error);
      }
      var row := found.value;
      user := new User(row.username, row.role);
      user.id := row.id;
      user.password.hash := row.passwordHash;
      user.createdAt := row.createdAt;
      err := None;
    }
  }

  /** The columns the lookup's SELECT names, and the destinations its Scan is given. */
  const SELECT_COLUMNS: seq<string> := ["id", "username", "email", "password_hash", "role", "created_at"]
  const SCAN_DESTINATIONS: seq<string> := ["ID", "Username", "Password.hash", "Role", "CreatedAt"]

  /** Row.Scan as database/sql does it: the number of destinations must equal the number of
      columns, or the scan fails before writing anything. */
  function ScanArity(columns: nat, destinations: nat): Option<StoreError> {
    if columns != destinations then
      Some(PersistenceFailure("sql: expected columns and Scan destinations to agree"))
    else None
  }

  /** The lookup as the query and the Scan are written, for a table that has the columns the
      SELECT names. */
  function LookupAsWritten(rows: map<string, Row>, username: string, fault: Option<string>)
    : Result<Row, StoreError>
  {
    if fault.Some? then Err(PersistenceFailure(fault.value))
    else if username !in rows then Err(NotFound)
    else match ScanArity(|SELECT_COLUMNS|, |SCAN_DESTINATIONS|)
      case Some(e) => Err(e)
      case None => Ok(rows[username])
  }

  /** As written, six columns meet five destinations, so every lookup fails, even of a
      user that is stored. */
  lemma LookupAsWrittenAlwaysFails(rows: map<string, Row>, username: string, fault: Option<string>)
    ensures LookupAsWritten(rows, username, fault).Err?
  {
  }
}
