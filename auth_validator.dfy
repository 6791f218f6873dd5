/** The request schemas of the authentication routes: login, register and lock. */
module AuthValidator {
  import opened Wrappers
  import opened JsValue
  import opened Zod

  /** `loginSchema`. */
  const LoginShape: Shape := map[
    "username" := Text(1, None),
    "password" := Text(1, None)]

  /**
   * `registerSchema`. `age` is `z.number().int().positive()`: for an integer,
   * greater than 0 is at least 1.
   */
  const RegisterShape: Shape := map[
    "name" := Text(1, None),
    "username" := Optional(Text(1, None)),
    "email" := EmailText,
    "mobile" := Optional(Text(0, None)),
    "password" := Text(6, None),
    "phone" := Optional(Text(0, None)),
    "age" := Optional(Int(Plain, Some(1), None))]

  /** `lockSchema`. */
  const LockShape: Shape := map["lock_password" := Text(1, None)]

  predicate Login(v: Value) { Accepts(LoginShape, v, NoEmail()) }
  predicate Register(v: Value, isEmail: string -> bool) { Accepts(RegisterShape, v, isEmail) }
  predicate Lock(v: Value) { Accepts(LockShape, v, NoEmail()) }

  /** A login body is accepted exactly when it is an object whose `username` and `password` are non-empty strings. */
  lemma LoginFields(v: Value)
    ensures Login(v) <==>
      v.Obj? &&
      Field(v, "username").Str? && Field(v, "username").s != "" &&
      Field(v, "password").Str? && Field(v, "password").s != ""
  {
    if v.Obj? && Field(v, "username").Str? && Field(v, "username").s != "" &&
      Field(v, "password").Str? && Field(v, "password").s != "" {
      assert forall k :: k in LoginShape ==> Passes(LoginShape[k], Field(v, k), NoEmail());
    }
    if Login(v) {
      assert Passes(LoginShape["username"], Field(v, "username"), NoEmail());
      assert Passes(LoginShape["password"], Field(v, "password"), NoEmail());
    }
  }

  /**
   * A register body is accepted exactly when it is an object with a non-empty
   * name, an e-mail address and a password of at least six characters, whose
   * `username`, when given, is a non-empty string, whose `mobile` and `phone`,
   * when given, are strings, and whose `age`, when given, is a whole number of
   * at least 1.
   */
  lemma RegisterFields(v: Value, isEmail: string -> bool)
    ensures Register(v, isEmail) <==>
      v.Obj? &&
      Field(v, "name").Str? && Field(v, "name").s != "" &&
      Field(v, "email").Str? && isEmail(Field(v, "email").s) &&
      Field(v, "password").Str? && |Field(v, "password").s| >= 6 &&
      (Field(v, "username") == Undefined || (Field(v, "username").Str? && Field(v, "username").s != "")) &&
      (Field(v, "mobile") == Undefined || Field(v, "mobile").Str?) &&
      (Field(v, "phone") == Undefined || Field(v, "phone").Str?) &&
      (Field(v, "age") == Undefined || (Field(v, "age").Num? && IsInteger(Field(v, "age").x) && Field(v, "age").x >= 1.0))
  {
    RegisterChecks(v, isEmail);
    if !Register(v, isEmail) && v.Obj? {
      var k :| k in RegisterShape && !Passes(RegisterShape[k], Field(v, k), isEmail);
      assert k in {"name", "username", "email", "mobile", "password", "phone", "age"};
    }
  }

  /** What each check of the register schema asks of its field. */
  lemma RegisterChecks(v: Value, isEmail: string -> bool)
    ensures var name, email, password := Field(v, "name"), Field(v, "email"), Field(v, "password");
      (Passes(RegisterShape["name"], name, isEmail) <==> name.Str? && name.s != "") &&
      (Passes(RegisterShape["email"], email, isEmail) <==> email.Str? && isEmail(email.s)) &&
      (Passes(RegisterShape["password"], password, isEmail) <==> password.Str? && |password.s| >= 6)
    ensures var username, mobile, phone, age := Field(v, "username"), Field(v, "mobile"), Field(v, "phone"), Field(v, "age");
      (Passes(RegisterShape["username"], username, isEmail) <==> username == Undefined || (username.Str? && username.s != "")) &&
      (Passes(RegisterShape["mobile"], mobile, isEmail) <==> mobile == Undefined || mobile.Str?) &&
      (Passes(RegisterShape["phone"], phone, isEmail) <==> phone == Undefined || phone.Str?) &&
      (Passes(RegisterShape["age"], age, isEmail) <==> age == Undefined || (age.Num? && IsInteger(age.x) && age.x >= 1.0))
  {
  }

  /** A register body that names a username is also a valid login body. */
  lemma RegisterWithUsernameIsLogin(v: Value, isEmail: string -> bool)
    requires Register(v, isEmail) && Field(v, "username") != Undefined
    ensures Login(v)
  {
    RegisterFields(v, isEmail);
    LoginFields(v);
  }

  /**
   * A register `age` given as a number is accepted exactly when it is a whole
   * number of at least 1 (given that the rest of the body is valid): 0 is
   * refused and there is no upper bound.
   */
  lemma RegisterAge(m: map<string, Value>, x: real, isEmail: string -> bool)
    ensures Register(Obj(m["age" := Num(x)]), isEmail) <==>
      IsInteger(x) && x >= 1.0 && Register(Obj(m - {"age"}), isEmail)
  {
    var a, rest := Obj(m["age" := Num(x)]), Obj(m - {"age"});
    assert Field(a, "age") == Num(x);
    assert Field(rest, "age") == Undefined;
    assert forall k :: k != "age" ==> Field(a, k) == Field(rest, k);
    assert Passes(RegisterShape["age"], Num(x), isEmail) <==> Passes(Int(Plain, Some(1), None), Num(x), isEmail);
    assert Passes(RegisterShape["age"], Field(rest, "age"), isEmail);
  }

  /** `mobile` and `phone` take any string, the empty one included. */
  lemma RegisterAnyMobile(m: map<string, Value>, s: string, t: string, isEmail: string -> bool)
    ensures Register(Obj(m["mobile" := Str(s)]["phone" := Str(t)]), isEmail) <==>
      Register(Obj(m - {"mobile", "phone"}), isEmail)
  {
    var a, rest := Obj(m["mobile" := Str(s)]["phone" := Str(t)]), Obj(m - {"mobile", "phone"});
    assert Field(a, "mobile") == Str(s) && Field(a, "phone") == Str(t);
    assert Field(rest, "mobile") == Undefined && Field(rest, "phone") == Undefined;
    assert forall k :: k != "mobile" && k != "phone" ==> Field(a, k) == Field(rest, k);
    assert Passes(RegisterShape["mobile"], Field(a, "mobile"), isEmail);
    assert Passes(RegisterShape["phone"], Field(a, "phone"), isEmail);
  }

  /** A lock body is accepted exactly when `lock_password` is a non-empty string. */
  lemma LockFields(v: Value)
    ensures Lock(v) <==> v.Obj? && Field(v, "lock_password").Str? && Field(v, "lock_password").s != ""
  {
    if Lock(v) {
      assert Passes(LockShape["lock_password"], Field(v, "lock_password"), NoEmail());
    }
  }
}
