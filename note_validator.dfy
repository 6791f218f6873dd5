/** The request schemas for notes: create, update, delete and list. */
module NoteValidator {
  import opened Wrappers
  import opened JsValue
  import opened Zod

  const CoercedId := Int(Coerced, Some(1), None)
  const RoleValues: set<int> := {0, 1, 2}

  /** `createNoteSchema`. */
  const CreateShape: Shape := map[
    "id" := CoercedId,
    "cate_id" := Int(Coerced, Some(1), None),
    "title" := Optional(Text(0, Some(225))),
    "content" := Text(1, Some(65535)),
    "src" := Optional(Text(0, Some(100))),
    "status" := Int(Coerced, Some(1), None),
    "file_ids" := Text(1, Some(500)),
    "role_type" := IntIn(Coerced, RoleValues),
    "role_dids" := Text(1, Some(500)),
    "role_uids" := Text(1, Some(500)),
    "start_time" := TimeText,
    "end_time" := TimeText,
    "admin_id" := Int(Coerced, Some(1), None),
    "create_time" := TimeText,
    "update_time" := TimeText,
    "delete_time" := TimeText]

  /** `updateNoteSchema`: only `id` is required; the caps stay, the minimums go. */
  const UpdateShape: Shape := map[
    "id" := CoercedId,
    "cate_id" := Optional(Int(Coerced, None, None)),
    "title" := Optional(Text(0, Some(225))),
    "content" := Optional(Text(0, Some(65535))),
    "src" := Optional(Text(0, Some(100))),
    "status" := Optional(Int(Coerced, None, None)),
    "file_ids" := Optional(Text(0, Some(500))),
    "role_type" := Optional(IntIn(Coerced, RoleValues)),
    "role_dids" := Optional(Text(0, Some(500))),
    "role_uids" := Optional(Text(0, Some(500))),
    "start_time" := Optional(TimeText),
    "end_time" := Optional(TimeText),
    "admin_id" := Optional(Int(Coerced, None, None)),
    "create_time" := Optional(TimeText),
    "update_time" := Optional(TimeText),
    "delete_time" := Optional(TimeText)]

  /** `deleteNoteSchema`: `id` is a number, not coerced. */
  const DeleteShape: Shape := map["id" := Int(Plain, Some(1), None)]

  predicate CreateNote(v: Value) { Accepts(CreateShape, v, NoEmail()) }
  predicate UpdateNote(v: Value) { Accepts(UpdateShape, v, NoEmail()) }
  predicate DeleteNote(v: Value) { Accepts(DeleteShape, v, NoEmail()) }

  /** Field by field, the create schema is at least as strict as the update schema. */
  lemma CreateStricterThanUpdate()
    ensures forall k :: k in UpdateShape ==> k in CreateShape && Stricter(CreateShape[k], UpdateShape[k])
  {
    var c: Shape, u: Shape := map[], map[];
    StricterExtend(c, u, "id", CoercedId, CoercedId);
    c, u := c["id" := CoercedId], u["id" := CoercedId];
    StricterExtend(c, u, "cate_id", Int(Coerced, Some(1), None), Optional(Int(Coerced, None, None)));
    c, u := c["cate_id" := Int(Coerced, Some(1), None)], u["cate_id" := Optional(Int(Coerced, None, None))];
    StricterExtend(c, u, "title", Optional(Text(0, Some(225))), Optional(Text(0, Some(225))));
    c, u := c["title" := Optional(Text(0, Some(225)))], u["title" := Optional(Text(0, Some(225)))];
    StricterExtend(c, u, "content", Text(1, Some(65535)), Optional(Text(0, Some(65535))));
    c, u := c["content" := Text(1, Some(65535))], u["content" := Optional(Text(0, Some(65535)))];
    StricterExtend(c, u, "src", Optional(Text(0, Some(100))), Optional(Text(0, Some(100))));
    c, u := c["src" := Optional(Text(0, Some(100)))], u["src" := Optional(Text(0, Some(100)))];
    StricterExtend(c, u, "status", Int(Coerced, Some(1), None), Optional(Int(Coerced, None, None)));
    c, u := c["status" := Int(Coerced, Some(1), None)], u["status" := Optional(Int(Coerced, None, None))];
    StricterExtend(c, u, "file_ids", Text(1, Some(500)), Optional(Text(0, Some(500))));
    c, u := c["file_ids" := Text(1, Some(500))], u["file_ids" := Optional(Text(0, Some(500)))];
    StricterExtend(c, u, "role_type", IntIn(Coerced, RoleValues), Optional(IntIn(Coerced, RoleValues)));
    c, u := c["role_type" := IntIn(Coerced, RoleValues)], u["role_type" := Optional(IntIn(Coerced, RoleValues))];
    StricterExtend(c, u, "role_dids", Text(1, Some(500)), Optional(Text(0, Some(500))));
    c, u := c["role_dids" := Text(1, Some(500))], u["role_dids" := Optional(Text(0, Some(500)))];
    StricterExtend(c, u, "role_uids", Text(1, Some(500)), Optional(Text(0, Some(500))));
    c, u := c["role_uids" := Text(1, Some(500))], u["role_uids" := Optional(Text(0, Some(500)))];
    StricterExtend(c, u, "start_time", TimeText, Optional(TimeText));
    c, u := c["start_time" := TimeText], u["start_time" := Optional(TimeText)];
    StricterExtend(c, u, "end_time", TimeText, Optional(TimeText));
    c, u := c["end_time" := TimeText], u["end_time" := Optional(TimeText)];
    StricterExtend(c, u, "admin_id", Int(Coerced, Some(1), None), Optional(Int(Coerced, None, None)));
    c, u := c["admin_id" := Int(Coerced, Some(1), None)], u["admin_id" := Optional(Int(Coerced, None, None))];
    StricterExtend(c, u, "create_time", TimeText, Optional(TimeText));
    c, u := c["create_time" := TimeText], u["create_time" := Optional(TimeText)];
    StricterExtend(c, u, "update_time", TimeText, Optional(TimeText));
    c, u := c["update_time" := TimeText], u["update_time" := Optional(TimeText)];
    StricterExtend(c, u, "delete_time", TimeText, Optional(TimeText));
    c, u := c["delete_time" := TimeText], u["delete_time" := Optional(TimeText)];
    assert c == CreateShape && u == UpdateShape;
  }

  /** Every body the create schema accepts, the update schema accepts too. */
  lemma CreateNoteIsUpdate(v: Value)
    requires CreateNote(v)
    ensures UpdateNote(v)
  {
    CreateStricterThanUpdate();
    StricterAccepts(CreateShape, UpdateShape, v, NoEmail());
  }

  /**
   * The numeric fields of create and update are coerced: the decimal text of
   * a number is accepted exactly where the number is.
   */
  lemma CoercionAcceptsDecimalText(m: map<string, Value>, k: string, n: nat)
    requires k in {"id", "cate_id", "status", "admin_id", "role_type"}
    ensures CreateNote(Obj(m[k := Str(DecimalString(n))])) == CreateNote(Obj(m[k := Num(n as real)]))
    ensures UpdateNote(Obj(m[k := Str(DecimalString(n))])) == UpdateNote(Obj(m[k := Num(n as real)]))
  {
    NumericFieldsCoerce0();
    NumericFieldsCoerce1();
    CoercedFieldDecimal(CreateShape, m, k, n, NoEmail());
    CoercedFieldDecimal(UpdateShape, m, k, n, NoEmail());
  }

  lemma NumericFieldsCoerce0()
    ensures "id" in CreateShape && CoercesNumber(CreateShape["id"])
    ensures "id" in UpdateShape && CoercesNumber(UpdateShape["id"])
    ensures "cate_id" in CreateShape && CoercesNumber(CreateShape["cate_id"])
    ensures "cate_id" in UpdateShape && CoercesNumber(UpdateShape["cate_id"])
    ensures "status" in CreateShape && CoercesNumber(CreateShape["status"])
    ensures "status" in UpdateShape && CoercesNumber(UpdateShape["status"])
  {
  }

  lemma NumericFieldsCoerce1()
    ensures "admin_id" in CreateShape && CoercesNumber(CreateShape["admin_id"])
    ensures "admin_id" in UpdateShape && CoercesNumber(UpdateShape["admin_id"])
    ensures "role_type" in CreateShape && CoercesNumber(CreateShape["role_type"])
    ensures "role_type" in UpdateShape && CoercesNumber(UpdateShape["role_type"])
  {
  }

  /** A create body with `status` 0 (meant as "disabled") is rejected: the minimum is 1. */
  lemma CreateRejectsStatusZero(m: map<string, Value>)
    ensures !CreateNote(Obj(m["status" := Num(0.0)]))
    ensures !CreateNote(Obj(m["status" := Str("0")]))
  {
    CreateRequiredChecks();
    assert Field(Obj(m["status" := Num(0.0)]), "status") == Num(0.0);
    assert Field(Obj(m["status" := Str("0")]), "status") == Str("0");
    assert NumberOfString("0") == Some(0) by { assert AllDigits("0"); }
    RejectedByField(CreateShape, Obj(m["status" := Num(0.0)]), "status", NoEmail());
    RejectedByField(CreateShape, Obj(m["status" := Str("0")]), "status", NoEmail());
  }

  /** An update that names only the note is valid, while a create needs every required field. */
  lemma UpdateNeedsOnlyId(n: nat)
    requires n >= 1
    ensures UpdateNote(Obj(map["id" := Num(n as real)]))
    ensures !CreateNote(Obj(map["id" := Num(n as real)]))
  {
    UpdateOptionalBesidesId();
    AcceptsSingleField(UpdateShape, "id", Num(n as real), NoEmail());
    CreateRequiredChecks();
    assert Field(Obj(map["id" := Num(n as real)]), "content") == Undefined;
    RejectedByField(CreateShape, Obj(map["id" := Num(n as real)]), "content", NoEmail());
  }

  /** The create checks of `content` and `status`. */
  lemma CreateRequiredChecks()
    ensures "content" in CreateShape && CreateShape["content"] == Text(1, Some(65535))
    ensures "status" in CreateShape && CreateShape["status"] == Int(Coerced, Some(1), None)
  {
  }

  /** Every key of the update schema other than `id` is optional. */
  lemma UpdateOptionalBesidesId()
    ensures forall k :: k in UpdateShape ==> k == "id" || UpdateShape[k].Optional?
  {
  }

  /** Delete does not coerce: an `id` given as text is refused whatever it spells. */
  lemma DeleteRejectsText(v: Value)
    requires Field(v, "id").Str?
    ensures !DeleteNote(v)
  {
  }

  /** A role outside 0, 1 and 2 is refused by both create and update. */
  lemma RoleTypeOutOfRange(m: map<string, Value>, r: int)
    requires r !in RoleValues
    ensures !CreateNote(Obj(m["role_type" := Num(r as real)]))
    ensures !UpdateNote(Obj(m["role_type" := Num(r as real)]))
  {
    var v := Obj(m["role_type" := Num(r as real)]);
    assert Field(v, "role_type") == Num(r as real);
    assert (r as real).Floor == r;
    assert !Passes(CreateShape["role_type"], Field(v, "role_type"), NoEmail());
    assert !Passes(UpdateShape["role_type"], Field(v, "role_type"), NoEmail());
  }

  /** The `params` object after `listNoteSchema`: defaults filled in, other keys passed through. */
  function ListParams(p: map<string, Value>): map<string, Value> {
    p["current" := if Get(p, "current") == Undefined then Num(1.0) else p["current"]]
     ["pageSize" := if Get(p, "pageSize") == Undefined then Num(10.0) else p["pageSize"]]
  }

  const CurrentCheck := Int(Plain, Some(1), None)
  const PageSizeCheck := Int(Plain, Some(1), Some(100))

  /** The shape of `params` in `listNoteSchema`, before the defaults apply. */
  const ListParamsShape: Shape := map["current" := Optional(CurrentCheck), "pageSize" := Optional(PageSizeCheck)]

  /**
   * `listNoteSchema.parse`: the output holds only `params`; `None` where the
   * schema rejects the input.
   */
  function ParseListNote(v: Value): (r: Option<Value>)
    ensures r.Some? ==> r.value.Obj? && r.value.fields.Keys == {"params"}
  {
    if v.Obj? && Accepts(ListParamsShape, Field(v, "params"), NoEmail()) then
      Some(Obj(map["params" := Obj(ListParams(Field(v, "params").fields))]))
    else None
  }

  /**
   * An accepted list request has an integral `current` of at least 1 and a
   * `pageSize` from 1 to 100, taking 1 and 10 where they were left out, and
   * every other key of `params` comes through unchanged.
   */
  lemma ListNoteOutput(v: Value)
    requires ParseListNote(v).Some?
    ensures var out := ParseListNote(v).value.fields["params"];
      out.Obj? && "current" in out.fields && "pageSize" in out.fields &&
      Passes(CurrentCheck, out.fields["current"], NoEmail()) &&
      Passes(PageSizeCheck, out.fields["pageSize"], NoEmail()) &&
      (Field(Field(v, "params"), "current") == Undefined ==> out.fields["current"] == Num(1.0)) &&
      (Field(Field(v, "params"), "pageSize") == Undefined ==> out.fields["pageSize"] == Num(10.0)) &&
      forall k :: k in Field(v, "params").fields && k != "current" && k != "pageSize" ==>
        k in out.fields && out.fields[k] == Field(v, "params").fields[k]
  {
    var p := Field(v, "params");
    assert Passes(ListParamsShape["current"], Field(p, "current"), NoEmail());
    assert Passes(ListParamsShape["pageSize"], Field(p, "pageSize"), NoEmail());
  }

  /** Parsing an already parsed list request changes nothing. */
  lemma ListNoteIdempotent(v: Value)
    requires ParseListNote(v).Some?
    ensures ParseListNote(ParseListNote(v).value) == ParseListNote(v)
  {
    var p := Field(v, "params").fields;
    var out := ParseListNote(v).value;
    assert Field(out, "params") == Obj(ListParams(p));
    assert ListParams(ListParams(p)) == ListParams(p);
  }

  /** A list request whose `params` is not an object, or a non-integral `current`, is refused. */
  lemma ListNoteRejects(p: map<string, Value>, x: real)
    requires !IsInteger(x)
    ensures ParseListNote(Obj(map["params" := Str("")])).None?
    ensures ParseListNote(Obj(map["params" := Obj(p["current" := Num(x)])])).None?
  {
    var params := Obj(p["current" := Num(x)]);
    assert Field(params, "current") == Num(x);
    assert !Passes(ListParamsShape["current"], Field(params, "current"), NoEmail());
  }
}
