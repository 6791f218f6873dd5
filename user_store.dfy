/**
 * The administrator table `oa_admin` and the log table `oa_admin_log`, with
 * the queries and updates the user service issues. Rows are kept in table
 * order, which is the order a query without `ORDER BY` returns them in
 * here. `now` is the database's `NOW()` and `new Date()`, a parameter.
 */
module UserStore {
  import opened Wrappers
  import opened JsValue
  import opened Seqs
  import Password

  /** One row of `oa_admin`; the nullable text columns hold `null` as `Null`. */
  datatype AdminRow = AdminRow(
    id: int,
    name: Value,
    username: Value,
    email: Value,
    mobile: Value,
    password: string,
    salt: string,
    phone: Value,
    age: Value,
    status: Value,
    isLock: int,
    loginNum: int,
    lastLoginTime: Option<int>,
    lastLoginIp: Option<string>,
    createdAt: int,
    updatedAt: int)

  /** The row as the object `SELECT *` gives, one key per column. */
  function RowObject(r: AdminRow): (m: map<string, Value>)
    ensures "password" in m && "salt" in m && "id" in m
    ensures m["password"] == Str(r.password) && m["salt"] == Str(r.salt)
    ensures "pwd" !in m
  {
    map[
      "id" := Num(r.id as real),
      "name" := r.name,
      "username" := r.username,
      "email" := r.email,
      "mobile" := r.mobile,
      "password" := Str(r.password),
      "salt" := Str(r.salt),
      "phone" := r.phone,
      "age" := r.age,
      "status" := r.status,
      "is_lock" := Num(r.isLock as real),
      "login_num" := Num(r.loginNum as real),
      "last_login_time" := (match r.lastLoginTime case Some(t) => Num(t as real) case None => Null),
      "last_login_ip" := (match r.lastLoginIp case Some(ip) => Str(ip) case None => Null),
      "created_at" := Num(r.createdAt as real),
      "updated_at" := Num(r.updatedAt as real)]
  }

  /** What `createUser` is given. */
  datatype CreateUserData = CreateUserData(
    name: Value, username: Value, email: Value, mobile: Value, password: string,
    phone: Value, age: Value, status: Value)

  /** One row of `oa_admin_log`. */
  datatype AdminLog = AdminLog(
    uid: int, logType: string, action: string, subject: string, paramId: int, param: string, ip: string,
    createTime: int)

  /** What `createAdminLog` is given; its `createTime` is not stored. */
  datatype AdminLogData = AdminLogData(
    uid: int, logType: string, action: string, subject: string, paramId: int, param: string, ip: string,
    createTime: int)

  /** `v || null`. */
  function OrNull(v: Value): (r: Value)
    ensures Truthy(v) ==> r == v
    ensures !Truthy(v) ==> r == Null
  {
    if Truthy(v) then v else Null
  }

  /** `v || 1`. */
  function OrOne(v: Value): (r: Value)
    ensures Truthy(v) ==> r == v
    ensures !Truthy(v) ==> r == Num(1.0)
  {
    if Truthy(v) then v else Num(1.0)
  }

  /** The row `createUser` inserts, with the salt and salted hash it computed. */
  function InsertedRow(id: int, d: CreateUserData, salt: string, hashed: string, now: int): AdminRow {
    AdminRow(id, d.name, OrNull(d.username), d.email, OrNull(d.mobile), hashed, salt,
      OrNull(d.phone), OrNull(d.age), OrOne(d.status), 0, 0, None, None, now, now)
  }

  /**
   * The defaults of an inserted row: missing or empty `username`, `mobile`,
   * `phone` and `age` become `null`, a falsy `status` (0 included) becomes 1,
   * the row is unlocked with no logins, and the password column holds the
   * salted hash under the stored salt.
   */
  lemma InsertedDefaults(id: int, d: CreateUserData, perm: seq<int>, digest: string -> seq<Password.byte>, now: int)
    requires Password.IsPermutation(perm, |Password.Alphabet|)
    ensures var salt := Password.GenerateSalt(Password.DefaultSaltLength, perm);
      var r := InsertedRow(id, d, salt, Password.SetPassword(d.password, salt, digest), now);
      r.id == id && r.name == d.name && r.email == d.email &&
      (d.username == Undefined || d.username == Str("") ==> r.username == Null) &&
      (d.username.Str? && d.username.s != "" ==> r.username == d.username) &&
      (d.mobile == Undefined || d.mobile == Str("") ==> r.mobile == Null) &&
      (d.phone == Undefined || d.phone == Str("") ==> r.phone == Null) &&
      (d.age == Undefined || d.age == Num(0.0) ==> r.age == Null) &&
      (d.status == Undefined || d.status == Num(0.0) ==> r.status == Num(1.0)) &&
      (d.status.Num? && d.status.x != 0.0 ==> r.status == d.status) &&
      r.isLock == 0 && r.loginNum == 0 &&
      |r.salt| == 10 &&
      Password.VerifyPassword(d.password, r.password, r.salt, digest)
  {
    Password.DefaultSaltLengthIsTen(perm);
  }

  /** `UPDATE ... SET is_lock = 0, last_login_time = NOW(), last_login_ip = ?, login_num = login_num + 1`. */
  function LoggedIn(r: AdminRow, ip: string, now: int): AdminRow {
    r.(isLock := 0, lastLoginTime := Some(now), lastLoginIp := Some(ip), loginNum := r.loginNum + 1, updatedAt := now)
  }

  /** `UPDATE ... SET is_lock = ?, updated_at = NOW()`. */
  function WithLock(r: AdminRow, isLock: int, now: int): AdminRow {
    r.(isLock := isLock, updatedAt := now)
  }

  /** A login unlocks the row and counts exactly one more login; the rest of the row but the login record stays. */
  lemma LoggedInEffect(r: AdminRow, ip: string, now: int)
    ensures LoggedIn(r, ip, now).isLock == 0
    ensures LoggedIn(r, ip, now).loginNum == r.loginNum + 1
    ensures LoggedIn(r, ip, now).lastLoginIp == Some(ip)
    ensures LoggedIn(r, ip, now).(isLock := r.isLock, loginNum := r.loginNum, lastLoginTime := r.lastLoginTime,
      lastLoginIp := r.lastLoginIp, updatedAt := r.updatedAt) == r
  {
  }

  /** Setting the lock flag changes nothing but the flag and the update time. */
  lemma WithLockEffect(r: AdminRow, isLock: int, now: int)
    ensures WithLock(r, isLock, now).isLock == isLock
    ensures WithLock(r, isLock, now).(isLock := r.isLock, updatedAt := r.updatedAt) == r
  {
  }

  /** The predicates of the three `WHERE` clauses of the login lookup and of `WHERE id = ?`. */
  function UsernameIs(u: string): AdminRow -> bool { (r: AdminRow) => r.username == Str(u) }
  function EmailIs(u: Value): AdminRow -> bool { (r: AdminRow) => r.email == u }
  function MobileIs(u: string): AdminRow -> bool { (r: AdminRow) => r.mobile == Str(u) }
  function IdIs(id: Value): AdminRow -> bool { (r: AdminRow) => Num(r.id as real) == id }

  /** The login lookup: username first, then e-mail, then mobile, the first row of the first query that finds one. */
  function LoginLookup(rows: seq<AdminRow>, u: string): (r: Option<AdminRow>)
    ensures r.Some? ==> r.value in rows
    ensures r.Some? ==> r.value.username == Str(u) || r.value.email == Str(u) || r.value.mobile == Str(u)
  {
    var byName := Filter(rows, UsernameIs(u));
    if |byName| > 0 then Some(byName[0])
    else
      var byEmail := Filter(rows, EmailIs(Str(u)));
      if |byEmail| > 0 then Some(byEmail[0]) else FirstOf(Filter(rows, MobileIs(u)))
  }

  /** `r` is the earliest row satisfying `p`. */
  ghost predicate IsFirst(rows: seq<AdminRow>, r: AdminRow, p: AdminRow -> bool) {
    exists i :: 0 <= i < |rows| && rows[i] == r && p(r) && forall j :: 0 <= j < i ==> !p(rows[j])
  }

  /** The first row of a filtered result set is the earliest row satisfying the filter. */
  lemma FirstMatch(rows: seq<AdminRow>, p: AdminRow -> bool)
    ensures FirstOf(Filter(rows, p)).None? <==> forall i :: 0 <= i < |rows| ==> !p(rows[i])
    ensures FirstOf(Filter(rows, p)).Some? ==> IsFirst(rows, FirstOf(Filter(rows, p)).value, p)
  {
    FirstOfFilter(rows, p);
  }

  lemma LookupByName(rows: seq<AdminRow>, u: string)
    ensures (exists i :: 0 <= i < |rows| && rows[i].username == Str(u)) ==>
      LoginLookup(rows, u).Some? && IsFirst(rows, LoginLookup(rows, u).value, UsernameIs(u))
    ensures (forall i :: 0 <= i < |rows| ==> rows[i].username != Str(u)) ==> Filter(rows, UsernameIs(u)) == []
  {
    FirstMatch(rows, UsernameIs(u));
  }

  lemma LookupByEmail(rows: seq<AdminRow>, u: string)
    requires Filter(rows, UsernameIs(u)) == []
    ensures (exists i :: 0 <= i < |rows| && rows[i].email == Str(u)) ==>
      LoginLookup(rows, u).Some? && IsFirst(rows, LoginLookup(rows, u).value, EmailIs(Str(u)))
    ensures (forall i :: 0 <= i < |rows| ==> rows[i].email != Str(u)) ==>
      LoginLookup(rows, u) == FirstOf(Filter(rows, MobileIs(u)))
  {
    FirstMatch(rows, EmailIs(Str(u)));
  }

  lemma LookupByMobile(rows: seq<AdminRow>, u: string)
    ensures FirstOf(Filter(rows, MobileIs(u))).None? <==> forall i :: 0 <= i < |rows| ==> rows[i].mobile != Str(u)
    ensures FirstOf(Filter(rows, MobileIs(u))).Some? ==>
      IsFirst(rows, FirstOf(Filter(rows, MobileIs(u))).value, MobileIs(u))
  {
    FirstMatch(rows, MobileIs(u));
  }

  /**
   * The login lookup finds nothing exactly when no row has the text as its
   * username, e-mail or mobile. A username match wins; the e-mail is
   * consulted only when no username matches, and the mobile only when
   * neither does; each time the earliest matching row is returned.
   */
  lemma LoginLookupPriority(rows: seq<AdminRow>, u: string)
    ensures LoginLookup(rows, u).None? <==>
      forall i :: 0 <= i < |rows| ==> rows[i].username != Str(u) && rows[i].email != Str(u) && rows[i].mobile != Str(u)
    ensures (exists i :: 0 <= i < |rows| && rows[i].username == Str(u)) ==>
      LoginLookup(rows, u).Some? && IsFirst(rows, LoginLookup(rows, u).value, UsernameIs(u))
    ensures ((forall i :: 0 <= i < |rows| ==> rows[i].username != Str(u)) &&
        (exists i :: 0 <= i < |rows| && rows[i].email == Str(u))) ==>
      LoginLookup(rows, u).Some? && IsFirst(rows, LoginLookup(rows, u).value, EmailIs(Str(u)))
    ensures ((forall i :: 0 <= i < |rows| ==> rows[i].username != Str(u) && rows[i].email != Str(u)) &&
        LoginLookup(rows, u).Some?) ==>
      IsFirst(rows, LoginLookup(rows, u).value, MobileIs(u))
  {
    LookupByName(rows, u);
    LookupByMobile(rows, u);
    if forall i :: 0 <= i < |rows| ==> rows[i].username != Str(u) {
      LookupByEmail(rows, u);
    }
  }

  /** `SELECT * FROM oa_admin WHERE id = ?`, first row or `null`. */
  function RowById(rows: seq<AdminRow>, id: Value): Option<AdminRow> {
    FirstOf(Filter(rows, IdIs(id)))
  }

  ghost predicate UniqueIds(rows: seq<AdminRow>) {
    forall i, j :: 0 <= i < j < |rows| ==> rows[i].id != rows[j].id
  }

  /** With unique ids, looking an id up finds exactly the row with that id, and nothing when there is none. */
  lemma RowByIdExact(rows: seq<AdminRow>, k: int)
    requires UniqueIds(rows)
    ensures RowById(rows, Num(k as real)).None? <==> forall i :: 0 <= i < |rows| ==> rows[i].id != k
    ensures forall i :: 0 <= i < |rows| && rows[i].id == k ==> RowById(rows, Num(k as real)) == Some(rows[i])
  {
    FirstOfFilter(rows, IdIs(Num(k as real)));
    forall i | 0 <= i < |rows| && rows[i].id == k ensures RowById(rows, Num(k as real)) == Some(rows[i]) {
      var j :| 0 <= j < |rows| && rows[j] == RowById(rows, Num(k as real)).value && IdIs(Num(k as real))(rows[j]);
      assert rows[j].id == k;
    }
  }

  /** A row found by an id carries that id and is a row of the table. */
  lemma RowByIdFound(rows: seq<AdminRow>, id: Value)
    requires RowById(rows, id).Some?
    ensures Num(RowById(rows, id).value.id as real) == id
    ensures RowById(rows, id).value in rows
  {
    FirstOfFilter(rows, IdIs(id));
  }

  /** The table after `UPDATE oa_admin SET is_lock = ?, updated_at = NOW() WHERE id = ?`. */
  function LockUpdated(rows: seq<AdminRow>, id: int, isLock: int, now: int): (r: seq<AdminRow>)
    ensures |r| == |rows|
    ensures forall i :: 0 <= i < |r| ==> r[i] == if rows[i].id == id then WithLock(rows[i], isLock, now) else rows[i]
  {
    seq(|rows|, i requires 0 <= i < |rows| => if rows[i].id == id then WithLock(rows[i], isLock, now) else rows[i])
  }

  /** The table after the login update of `updateLoginInfo`. */
  function LoginUpdated(rows: seq<AdminRow>, id: int, ip: string, now: int): (r: seq<AdminRow>)
    ensures |r| == |rows|
    ensures forall i :: 0 <= i < |r| ==> r[i] == if rows[i].id == id then LoggedIn(rows[i], ip, now) else rows[i]
  {
    seq(|rows|, i requires 0 <= i < |rows| => if rows[i].id == id then LoggedIn(rows[i], ip, now) else rows[i])
  }

  /**
   * After the lock update the user's row reads back with the new flag and
   * everything else as before, and every other row is untouched.
   */
  lemma LockUpdatedFind(rows: seq<AdminRow>, r: AdminRow, isLock: int, now: int)
    requires UniqueIds(rows) && r in rows
    ensures UniqueIds(LockUpdated(rows, r.id, isLock, now))
    ensures RowById(LockUpdated(rows, r.id, isLock, now), Num(r.id as real)) == Some(WithLock(r, isLock, now))
    ensures forall i :: 0 <= i < |rows| && rows[i].id != r.id ==> LockUpdated(rows, r.id, isLock, now)[i] == rows[i]
  {
    var after := LockUpdated(rows, r.id, isLock, now);
    var i :| 0 <= i < |rows| && rows[i] == r;
    assert after[i] == WithLock(r, isLock, now);
    RowByIdExact(after, r.id);
  }

  class UserStore {
    var rows: seq<AdminRow>
    var logs: seq<AdminLog>
    var nextId: int

    /** Ids are positive, below the next auto-increment value, and unique. */
    ghost predicate Valid()
      reads this
    {
      nextId >= 1 &&
      (forall i :: 0 <= i < |rows| ==> 1 <= rows[i].id < nextId) &&
      UniqueIds(rows)
    }

    constructor()
      ensures Valid() && rows == [] && logs == []
    {
      rows := [];
      logs := [];
      nextId := 1;
    }

    /** `getUserById(id)`: the first row with that id, or `null`. */
    function FindById(id: Value): (r: Option<AdminRow>)
      reads this
      ensures r.None? <==> forall i :: 0 <= i < |rows| ==> Num(rows[i].id as real) != id
      ensures r.Some? ==> r.value in rows && Num(r.value.id as real) == id
    {
      FirstOfFilter(rows, IdIs(id));
      RowById(rows, id)
    }

    /** `SELECT * FROM oa_admin WHERE email = ?`: the first row with that e-mail, or `null`. */
    function FindByEmail(email: Value): (r: Option<AdminRow>)
      reads this
      ensures r.None? <==> forall i :: 0 <= i < |rows| ==> rows[i].email != email
      ensures r.Some? ==> r.value in rows && r.value.email == email
    {
      FirstOfFilter(rows, EmailIs(email));
      FirstOf(Filter(rows, EmailIs(email)))
    }

    /** `getUserByUsernameOrEmail(username)`: up to three queries, one after the other. */
    method FindLogin(username: string) returns (user: Option<AdminRow>)
      ensures user == LoginLookup(rows, username)
    {
      var found := Filter(rows, UsernameIs(username));
      if |found| > 0 {
        return Some(found[0]);
      }
      found := Filter(rows, EmailIs(Str(username)));
      if |found| > 0 {
        return Some(found[0]);
      }
      found := Filter(rows, MobileIs(username));
      user := FirstOf(found);
    }

    /**
     * `createUser(data)`: a fresh ten-character salt from the shuffle `perm`,
     * the salted hash of the password, one inserted row with the next id, and
     * that row read back by its id.
     */
    method CreateUser(d: CreateUserData, perm: seq<int>, digest: string -> seq<Password.byte>, now: int)
      returns (user: Option<AdminRow>)
      requires Valid()
      requires Password.IsPermutation(perm, |Password.Alphabet|)
      modifies this
      ensures Valid()
      ensures var salt := Password.GenerateSalt(Password.DefaultSaltLength, perm);
        rows == old(rows) + [InsertedRow(old(nextId), d, salt, Password.SetPassword(d.password, salt, digest), now)]
      ensures nextId == old(nextId) + 1 && logs == old(logs)
      ensures user == Some(rows[|rows| - 1])
    {
      var salt := Password.GenerateSalt(Password.DefaultSaltLength, perm);
      var hashed := Password.SetPassword(d.password, salt, digest);
      var insertId := nextId;
      rows := rows + [InsertedRow(insertId, d, salt, hashed, now)];
      nextId := nextId + 1;
      RowByIdExact(rows, insertId);
      user := FindById(Num(insertId as real));
    }

    /** `updateLoginInfo(userId, ip)`. */
    method UpdateLoginInfo(userId: int, ip: string, now: int)
      requires Valid()
      modifies this
      ensures Valid()
      ensures rows == LoginUpdated(old(rows), userId, ip, now)
      ensures logs == old(logs) && nextId == old(nextId)
    {
      rows := LoginUpdated(rows, userId, ip, now);
    }

    /** `updateLockStatus(userId, isLock)`. */
    method UpdateLockStatus(userId: int, isLock: int, now: int)
      requires Valid()
      modifies this
      ensures Valid()
      ensures rows == LockUpdated(old(rows), userId, isLock, now)
      ensures logs == old(logs) && nextId == old(nextId)
    {
      rows := LockUpdated(rows, userId, isLock, now);
    }

    /** `createAdminLog(logData)`: one more log row, stamped with the current time instead of `logData.createTime`. */
    method CreateAdminLog(data: AdminLogData, now: int)
      requires Valid()
      modifies this
      ensures Valid()
      ensures logs == old(logs) + [AdminLog(data.uid, data.logType, data.action, data.subject, data.paramId,
        data.param, data.ip, now)]
      ensures rows == old(rows) && nextId == old(nextId)
    {
      logs := logs + [AdminLog(data.uid, data.logType, data.action, data.subject, data.paramId,
        data.param, data.ip, now)];
    }
  }
}
