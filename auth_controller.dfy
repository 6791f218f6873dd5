/**
 * The authentication handlers: login, register, the current user and the
 * lock screen. Each handler reads the validated body and the user id the
 * middleware stored, works on the user store, and answers with a status and
 * a JSON body, or throws to the error handler. The clock, the salt shuffle
 * and the foreign crypto functions are parameters.
 */
module AuthController {
  import opened Wrappers
  import opened JsValue
  import opened UserStore
  import Password
  import Token

  /** What a handler ends with: a response, or an exception thrown to the error handler. */
  datatype Outcome = Response(status: int, body: Value) | Thrown(error: string)

  /** `{ success: false, message }`. */
  function Failure(message: string): Value {
    Obj(map["success" := Bool(false), "message" := Str(message)])
  }

  /** `{ success: true, message, data }`. */
  function Success(message: string, data: Value): Value {
    Obj(map["success" := Bool(true), "message" := Str(message), "data" := data])
  }

  const UnknownUser := "用户名或手机号码错误"
  const WrongPassword := "用户或密码错误"
  const Disabled := "该用户禁止登录,请与管理者联系"
  const EmailTaken := "邮箱已被注册"
  const NoSuchUser := "用户不存在"
  const EmptyLockPassword := "请输入登录密码解锁"
  const WrongLockPassword := "密码错误"

  /**
   * `getClientIP(ctx)`: the `x-forwarded-for` header, else `x-real-ip`, else the
   * address of the connection, else `unknown`; a missing or empty value falls through.
   */
  function ClientIp(headers: map<string, string>, requestIp: string): (ip: string)
    ensures "x-forwarded-for" in headers && headers["x-forwarded-for"] != "" ==> ip == headers["x-forwarded-for"]
    ensures (("x-forwarded-for" !in headers || headers["x-forwarded-for"] == "") &&
        "x-real-ip" in headers && headers["x-real-ip"] != "") ==>
      ip == headers["x-real-ip"]
    ensures (("x-forwarded-for" !in headers || headers["x-forwarded-for"] == "") &&
        ("x-real-ip" !in headers || headers["x-real-ip"] == "")) ==>
      ip == if requestIp != "" then requestIp else "unknown"
    ensures ip != ""
  {
    var forwarded := if "x-forwarded-for" in headers then headers["x-forwarded-for"] else "";
    var realIp := if "x-real-ip" in headers then headers["x-real-ip"] else "";
    if forwarded != "" then forwarded
    else if realIp != "" then realIp
    else if requestIp != "" then requestIp
    else "unknown"
  }

  /** `const { password: _, salt: __, ...rest } = user`. */
  function WithoutSecrets(user: map<string, Value>): (r: map<string, Value>)
    ensures "password" !in r && "salt" !in r
    ensures forall k :: k in user && k != "password" && k != "salt" ==> k in r && r[k] == user[k]
    ensures forall k :: k in r ==> k in user
  {
    user - {"password", "salt"}
  }

  /** The hash the login handler compares against is the row's `column` property. */
  const PasswordColumnAsWritten := "pwd"
  const PasswordColumn := "password"

  /** `verifyPassword(password, user[column], user.salt)`: a missing property never equals a hash. */
  predicate PasswordMatches(password: string, row: AdminRow, column: string, digest: string -> seq<Password.byte>) {
    var stored := Get(RowObject(row), column);
    stored.Str? && Password.VerifyPassword(password, stored.s, row.salt, digest)
  }

  /** Where the login check chain stops. */
  datatype LoginDecision = NotFound | BadPassword | NotActive | Accepted(user: AdminRow)

  /** The check chain of `login`: the lookup, then the password, then the status. */
  function DecideLogin(rows: seq<AdminRow>, username: string, password: string, column: string,
    digest: string -> seq<Password.byte>): (d: LoginDecision)
    ensures d == NotFound <==> LoginLookup(rows, username).None?
    ensures d.Accepted? ==>
      d.user in rows && d.user.status == Num(1.0) && PasswordMatches(password, d.user, column, digest)
  {
    match LoginLookup(rows, username)
    case None => NotFound
    case Some(user) =>
      if !PasswordMatches(password, user, column, digest) then BadPassword
      else if user.status != Num(1.0) then NotActive
      else Accepted(user)
  }

  /**
   * The order of the checks: an unknown user is refused before any password
   * is looked at; a wrong password is refused whatever the status; only a
   * user with the right password and status 1 is let in.
   */
  lemma LoginChecksInOrder(rows: seq<AdminRow>, username: string, password: string, column: string,
    digest: string -> seq<Password.byte>)
    ensures var d := DecideLogin(rows, username, password, column, digest);
      (d == NotFound <==> LoginLookup(rows, username).None?) &&
      (d == BadPassword <==>
        LoginLookup(rows, username).Some? &&
        !PasswordMatches(password, LoginLookup(rows, username).value, column, digest)) &&
      (d == NotActive <==>
        LoginLookup(rows, username).Some? &&
        PasswordMatches(password, LoginLookup(rows, username).value, column, digest) &&
        LoginLookup(rows, username).value.status != Num(1.0)) &&
      (d.Accepted? <==>
        LoginLookup(rows, username).Some? &&
        PasswordMatches(password, LoginLookup(rows, username).value, column, digest) &&
        LoginLookup(rows, username).value.status == Num(1.0)) &&
      (d.Accepted? ==> d.user in rows)
  {
    LoginLookupInTable(rows, username);
  }

  lemma LoginLookupInTable(rows: seq<AdminRow>, username: string)
    ensures LoginLookup(rows, username).Some? ==> LoginLookup(rows, username).value in rows
  {
    LoginLookupPriority(rows, username);
  }

  /**
   * As written, `login` reads the hash from `user.pwd`, a column `createUser`
   * never writes (it stores the hash in `password`, which `lock` reads):
   * the password check fails for every row, so no login ever succeeds.
   */
  lemma LoginAsWrittenNeverAccepts(rows: seq<AdminRow>, username: string, password: string,
    digest: string -> seq<Password.byte>)
    ensures !DecideLogin(rows, username, password, PasswordColumnAsWritten, digest).Accepted?
    ensures LoginLookup(rows, username).Some? ==>
      DecideLogin(rows, username, password, PasswordColumnAsWritten, digest) == BadPassword
  {
    if LoginLookup(rows, username).Some? {
      var user := LoginLookup(rows, username).value;
      assert PasswordColumnAsWritten !in RowObject(user);
    }
  }

  /**
   * With the hash read from `password`, a user who registered with a
   * password, who is the first match for the name they log in with, and
   * whose status is 1, is let in with that password.
   */
  lemma RegisteredUserCanLogIn(rows: seq<AdminRow>, username: string, d: CreateUserData, id: int, perm: seq<int>,
    digest: string -> seq<Password.byte>, now: int)
    requires Password.IsPermutation(perm, |Password.Alphabet|)
    requires var salt := Password.GenerateSalt(Password.DefaultSaltLength, perm);
      LoginLookup(rows, username) == Some(InsertedRow(id, d, salt, Password.SetPassword(d.password, salt, digest), now))
    requires d.status == Undefined
    ensures var salt := Password.GenerateSalt(Password.DefaultSaltLength, perm);
      DecideLogin(rows, username, d.password, PasswordColumn, digest) ==
        Accepted(InsertedRow(id, d, salt, Password.SetPassword(d.password, salt, digest), now))
  {
    var salt := Password.GenerateSalt(Password.DefaultSaltLength, perm);
    var row := InsertedRow(id, d, salt, Password.SetPassword(d.password, salt, digest), now);
    assert Get(RowObject(row), PasswordColumn) == Str(row.password);
    InsertedDefaults(id, d, perm, digest, now);
  }

  /** The log row a successful login writes. */
  function LoginLog(user: AdminRow, ip: string): AdminLogData {
    AdminLogData(user.id, "login", "登录", "系统", user.id, "[]", ip, 0)
  }

  /** The body of a successful login: the uid, the user without password and salt, and the token. */
  function LoginBody(user: AdminRow, token: string): Value {
    Success("登录成功", Obj(map[
      "uid" := Num(user.id as real),
      "user" := Obj(WithoutSecrets(RowObject(user))),
      "token" := Str(token)]))
  }

  /**
   * `login(ctx)` with the hash read from the `password` column. Refusals
   * write nothing; a login writes exactly one `login` log row.
   */
  method Login(store: UserStore, username: string, password: string, headers: map<string, string>, requestIp: string,
    nowMs: int, now: int, codec: Token.Codec, digest: string -> seq<Password.byte>) returns (out: Outcome)
    requires store.Valid()
    modifies store
    ensures store.Valid() && store.rows == old(store.rows) && store.nextId == old(store.nextId)
    ensures var d := DecideLogin(old(store.rows), username, password, PasswordColumn, digest);
      (d == NotFound ==> out == Response(401, Failure(UnknownUser)) && store.logs == old(store.logs)) &&
      (d == BadPassword ==> out == Response(401, Failure(WrongPassword)) && store.logs == old(store.logs)) &&
      (d == NotActive ==> out == Response(403, Failure(Disabled)) && store.logs == old(store.logs)) &&
      (d.Accepted? ==>
        Token.GenerateToken(Num(d.user.id as real), nowMs, codec).Ok? &&
        out == Response(200, LoginBody(d.user, Token.GenerateToken(Num(d.user.id as real), nowMs, codec).value)) &&
        store.logs == old(store.logs) + [AdminLog(d.user.id, "login", "登录", "系统", d.user.id, "[]",
          ClientIp(headers, requestIp), now)])
  {
    ghost var d := DecideLogin(store.rows, username, password, PasswordColumn, digest);
    var ip := ClientIp(headers, requestIp);
    var found := store.FindLogin(username);
    if found.None? {
      assert d == NotFound;
      return Response(401, Failure(UnknownUser));
    }
    var user := found.value;
    if !PasswordMatches(password, user, PasswordColumn, digest) {
      assert d == BadPassword;
      return Response(401, Failure(WrongPassword));
    }
    if user.status != Num(1.0) {
      assert d == NotActive;
      return Response(403, Failure(Disabled));
    }
    assert d == Accepted(user);
    LoginLookupInTable(store.rows, username);
    assert user in store.rows && user.id >= 1;
    var token := Token.GenerateToken(Num(user.id as real), nowMs, codec);
    if token.Err? {
      assert false;
      return Thrown("Invalid userId provided");
    }
    store.CreateAdminLog(LoginLog(user, ip), now);
    out := Response(200, LoginBody(user, token.value));
  }

  /**
   * `register(ctx)` as written: its first step calls `UserService.getUserByEmail`,
   * which the user service does not define, so the call throws a TypeError
   * before anything is looked up or stored.
   */
  method RegisterAsWritten(store: UserStore, d: CreateUserData) returns (out: Outcome)
    ensures out.Thrown?
  {
    out := Thrown("TypeError: UserService.getUserByEmail is not a function");
  }

  /** The body of a successful registration: the user without password and salt, and the token. */
  function RegisterBody(user: AdminRow, token: string): Value {
    Success("注册成功", Obj(map["user" := Obj(WithoutSecrets(RowObject(user))), "token" := Str(token)]))
  }

  /**
   * `register(ctx)` with the e-mail lookup it evidently means: a taken e-mail
   * is refused with 400 and nothing stored; otherwise one user is created
   * and answered with 201 and a token for the new id.
   */
  method Register(store: UserStore, d: CreateUserData, perm: seq<int>, digest: string -> seq<Password.byte>, now: int,
    nowMs: int, codec: Token.Codec) returns (out: Outcome)
    requires store.Valid()
    requires Password.IsPermutation(perm, |Password.Alphabet|)
    modifies store
    ensures store.Valid() && store.logs == old(store.logs)
    ensures old(store.FindByEmail(d.email)).Some? ==>
      out == Response(400, Failure(EmailTaken)) && store.rows == old(store.rows) && store.nextId == old(store.nextId)
    ensures old(store.FindByEmail(d.email)).None? ==>
      var salt := Password.GenerateSalt(Password.DefaultSaltLength, perm);
      var user := InsertedRow(old(store.nextId), d, salt, Password.SetPassword(d.password, salt, digest), now);
      store.rows == old(store.rows) + [user] && store.nextId == old(store.nextId) + 1 &&
      Token.GenerateToken(Num(user.id as real), nowMs, codec).Ok? &&
      out == Response(201, RegisterBody(user, Token.GenerateToken(Num(user.id as real), nowMs, codec).value))
  {
    var existing := store.FindByEmail(d.email);
    if existing.Some? {
      return Response(400, Failure(EmailTaken));
    }
    ghost var before, id := store.rows, store.nextId;
    ghost var salt := Password.GenerateSalt(Password.DefaultSaltLength, perm);
    ghost var expected := InsertedRow(id, d, salt, Password.SetPassword(d.password, salt, digest), now);
    var created := store.CreateUser(d, perm, digest, now);
    assert store.rows == before + [expected];
    var user := created.value;
    assert user == expected && user.id == id >= 1;
    var token := Token.GenerateToken(Num(user.id as real), nowMs, codec);
    if token.Err? {
      assert false;
      return Thrown("Invalid userId provided");
    }
    out := Response(201, RegisterBody(user, token.value));
  }

  /** Once a registration has stored its row, the e-mail is taken: registering it again is refused. */
  lemma RegisteredEmailIsTaken(store: UserStore, before: seq<AdminRow>, user: AdminRow)
    requires store.rows == before + [user]
    ensures store.FindByEmail(user.email).Some?
  {
    assert store.rows[|before|].email == user.email;
  }

  /** `getCurrentUser(ctx)` for the id the middleware stored. */
  method GetCurrentUser(store: UserStore, jwtUid: Value) returns (out: Outcome)
    ensures store.FindById(jwtUid).None? ==> out == Response(404, Failure(NoSuchUser))
    ensures store.FindById(jwtUid).Some? ==>
      out == Response(200, Obj(map["success" := Bool(true),
        "data" := Obj(WithoutSecrets(RowObject(store.FindById(jwtUid).value)))]))
  {
    var user := store.FindById(jwtUid);
    if user.None? {
      return Response(404, Failure(NoSuchUser));
    }
    out := Response(200, Obj(map["success" := Bool(true), "data" := Obj(WithoutSecrets(RowObject(user.value)))]));
  }

  /** The answer of `getCurrentUser` never carries the password hash or the salt. */
  lemma CurrentUserHidesSecrets(r: AdminRow)
    ensures var data := WithoutSecrets(RowObject(r));
      "password" !in data && "salt" !in data && "id" in data && data["id"] == Num(r.id as real)
  {
  }

  /**
   * `lock(ctx)`: `GET` locks the screen of the current user; `POST` with the
   * login password unlocks it. An empty or wrong password is refused and
   * the flag stays as it was.
   */
  method Lock(store: UserStore, jwtUid: Value, httpMethod: string, lockPassword: string,
    digest: string -> seq<Password.byte>, now: int) returns (out: Outcome)
    requires store.Valid()
    modifies store
    ensures store.Valid() && store.logs == old(store.logs) && store.nextId == old(store.nextId)
    ensures old(store.FindById(jwtUid)).None? ==>
      out == Response(404, Failure(NoSuchUser)) && store.rows == old(store.rows)
    ensures old(store.FindById(jwtUid)).Some? && httpMethod == "POST" && lockPassword == "" ==>
      out == Response(400, Failure(EmptyLockPassword)) && store.rows == old(store.rows)
    ensures (old(store.FindById(jwtUid)).Some? && httpMethod == "POST" && lockPassword != "" &&
        !PasswordMatches(lockPassword, old(store.FindById(jwtUid)).value, PasswordColumn, digest)) ==>
      out == Response(401, Failure(WrongLockPassword)) && store.rows == old(store.rows)
    ensures (old(store.FindById(jwtUid)).Some? && httpMethod == "POST" && lockPassword != "" &&
        PasswordMatches(lockPassword, old(store.FindById(jwtUid)).value, PasswordColumn, digest)) ==>
      var user := old(store.FindById(jwtUid)).value;
      out == Response(200, Success("解锁成功", Obj(map["uid" := Num(user.id as real)]))) &&
      store.rows == LockUpdated(old(store.rows), user.id, 0, now) &&
      store.FindById(jwtUid) == Some(WithLock(user, 0, now))
    ensures old(store.FindById(jwtUid)).Some? && httpMethod != "POST" ==>
      var user := old(store.FindById(jwtUid)).value;
      out == Response(200, Obj(map["success" := Bool(true), "message" := Str("已锁定")])) &&
      store.rows == LockUpdated(old(store.rows), user.id, 1, now) &&
      store.FindById(jwtUid) == Some(WithLock(user, 1, now))
  {
    var found := store.FindById(jwtUid);
    if found.None? {
      return Response(404, Failure(NoSuchUser));
    }
    var user := found.value;
    RowByIdFound(store.rows, jwtUid);
    LockUpdatedFind(store.rows, user, if httpMethod == "POST" then 0 else 1, now);
    if httpMethod == "POST" {
      if lockPassword == "" {
        return Response(400, Failure(EmptyLockPassword));
      }
      if !PasswordMatches(lockPassword, user, PasswordColumn, digest) {
        return Response(401, Failure(WrongLockPassword));
      }
      store.UpdateLockStatus(user.id, 0, now);
      out := Response(200, Success("解锁成功", Obj(map["uid" := Num(user.id as real)])));
    } else {
      store.UpdateLockStatus(user.id, 1, now);
      out := Response(200, Obj(map["success" := Bool(true), "message" := Str("已锁定")]));
    }
  }

  /** Unlocking with the password the user registered with succeeds. */
  lemma UnlockWithOwnPassword(d: CreateUserData, id: int, perm: seq<int>, digest: string -> seq<Password.byte>, now: int)
    requires Password.IsPermutation(perm, |Password.Alphabet|)
    ensures var salt := Password.GenerateSalt(Password.DefaultSaltLength, perm);
      PasswordMatches(d.password, InsertedRow(id, d, salt, Password.SetPassword(d.password, salt, digest), now),
        PasswordColumn, digest)
  {
    var salt := Password.GenerateSalt(Password.DefaultSaltLength, perm);
    var row := InsertedRow(id, d, salt, Password.SetPassword(d.password, salt, digest), now);
    assert Get(RowObject(row), PasswordColumn) == Str(row.password);
  }
}
