/** The request schemas for users: create, update (the partial create) and the list query. */
module UserValidator {
  import opened Wrappers
  import opened JsValue
  import opened Zod

  /** `createUserSchema`. */
  const CreateUserShape: Shape := map[
    "name" := Text(2, Some(50)),
    "email" := EmailText,
    "age" := Optional(Int(Plain, Some(18), Some(100))),
    "phone" := Optional(PhoneText)]

  /** `updateUserSchema`: `createUserSchema.partial()`. */
  function UpdateUserShape(): Shape {
    Partial(CreateUserShape)
  }

  /** `getUserQuerySchema`: query-string values, so `page` and `limit` are text read by `Number`. */
  const UserQueryShape: Shape := map[
    "page" := Optional(Int(FromText, Some(1), None)),
    "limit" := Optional(Int(FromText, Some(1), Some(100))),
    "search" := Optional(Text(0, None))]

  predicate CreateUser(v: Value, isEmail: string -> bool) { Accepts(CreateUserShape, v, isEmail) }
  predicate UpdateUser(v: Value, isEmail: string -> bool) { Accepts(UpdateUserShape(), v, isEmail) }
  predicate UserQuery(v: Value) { Accepts(UserQueryShape, v, NoEmail()) }

  /** The empty update is valid, and so is every body the create schema accepts. */
  lemma UpdateUserAcceptsCreate(v: Value, isEmail: string -> bool)
    ensures UpdateUser(Obj(map[]), isEmail)
    ensures CreateUser(v, isEmail) ==> UpdateUser(v, isEmail)
  {
    PartialAcceptsEmpty(CreateUserShape, isEmail);
    if CreateUser(v, isEmail) {
      PartialAcceptsMore(CreateUserShape, v, isEmail);
    }
  }

  /**
   * A create body is accepted exactly when it is an object with a name of 2
   * to 50 characters, an e-mail address, an age, when given, that is a whole
   * number from 18 to 100, and a phone number, when given, of eleven digits
   * starting with 1 and then 3 to 9.
   */
  lemma CreateUserFields(v: Value, isEmail: string -> bool)
    ensures CreateUser(v, isEmail) <==>
      v.Obj? &&
      Field(v, "name").Str? && 2 <= |Field(v, "name").s| <= 50 &&
      Field(v, "email").Str? && isEmail(Field(v, "email").s) &&
      (Field(v, "age") == Undefined ||
        (Field(v, "age").Num? && IsInteger(Field(v, "age").x) && 18.0 <= Field(v, "age").x <= 100.0)) &&
      (Field(v, "phone") == Undefined || (Field(v, "phone").Str? && PhoneShaped(Field(v, "phone").s)))
  {
    var name, email, age, phone := Field(v, "name"), Field(v, "email"), Field(v, "age"), Field(v, "phone");
    assert Passes(CreateUserShape["name"], name, isEmail) <==> name.Str? && 2 <= |name.s| <= 50;
    assert Passes(CreateUserShape["email"], email, isEmail) <==> email.Str? && isEmail(email.s);
    assert Passes(CreateUserShape["age"], age, isEmail) <==>
      age == Undefined || (age.Num? && IsInteger(age.x) && 18.0 <= age.x <= 100.0);
    assert Passes(CreateUserShape["phone"], phone, isEmail) <==> phone == Undefined || (phone.Str? && PhoneShaped(phone.s));
    assert CreateUserShape.Keys == {"name", "email", "age", "phone"};
  }

  /** An explicit `null` is not a missing field: an update with `age: null` is refused. */
  lemma UpdateRejectsNullAge(m: map<string, Value>, isEmail: string -> bool)
    ensures !UpdateUser(Obj(m["age" := Null]), isEmail)
  {
    var v := Obj(m["age" := Null]);
    assert Field(v, "age") == Null;
    assert !Passes(UpdateUserShape()["age"], Field(v, "age"), isEmail);
  }

  /**
   * A query page written in decimal is accepted exactly when it is at least
   * 1 (given that the rest of the query is valid); the same page given as a
   * number, not as text, is refused.
   */
  lemma UserQueryPage(m: map<string, Value>, n: nat)
    ensures UserQuery(Obj(m["page" := Str(DecimalString(n))])) <==> n >= 1 && UserQuery(Obj(m - {"page"}))
    ensures !UserQuery(Obj(m["page" := Num(n as real)]))
  {
    var c := Int(FromText, Some(1), None);
    assert "page" in UserQueryShape && UserQueryShape["page"] == Optional(c);
    CoercedDecimal(c, n, NoEmail());
    AcceptsOptionalField(UserQueryShape, m, "page", Str(DecimalString(n)), NoEmail());
    AcceptsOptionalField(UserQueryShape, m, "page", Num(n as real), NoEmail());
  }

  /** All fields of the query are optional: the empty query is valid. */
  lemma UserQueryEmpty()
    ensures UserQuery(Obj(map[]))
  {
    assert forall k :: k in UserQueryShape ==> Field(Obj(map[]), k) == Undefined;
  }
}
