/**
 * The descriptor schema of the CRUD generator, with the issues zod reports:
 * each string field has its own message for a missing value, a value that
 * is not a string and an empty string; `type` has its own messages for a
 * missing value, a value that is not a number, a fraction and a negative
 * number (the last two can be reported together).
 */
module CrudValidator {
  import opened JsValue
  import opened Wrappers
  import opened Zod

  /** One reported problem: the path of the field (empty for the whole input) and its message. */
  datatype Issue = Issue(path: seq<string>, message: string)

  /** A string field of the descriptor with its three messages. */
  datatype StringField = StringField(key: string, required: string, invalidType: string, tooShort: string)

  const NameField := StringField("name", "中文菜单名称是必需的", "中文菜单名称必须是字符串", "请输入中文菜单名称")
  const ModuleField := StringField("module", "模块名称是必需的", "模块名称必须是字符串", "请输入模块名称")
  const TableField := StringField("table", "表名是必需的", "表名必须是字符串", "请输入表名")
  const ControllerField := StringField("controller", "控制器名称是必需的", "控制器名称必须是字符串", "请输入控制器名称")

  /** The string fields, in the order the schema declares them. */
  const StringFields: seq<StringField> := [NameField, ModuleField, TableField, ControllerField]

  const TypeRequired := "类型字段是必需的"
  const TypeNotNumber := "类型必须是数字"
  const TypeNotInteger := "类型必须是整数"
  const TypeNegative := "类型不能为负数"

  /** The message of a non-object input (zod's own wording is not modelled). */
  const NotAnObject := "Expected object"

  /** `z.string({...}).min(1, ...)` on the value of field `f`. */
  function StringIssues(f: StringField, v: Value): (r: seq<Issue>)
    ensures |r| <= 1
    ensures r == [] <==> v.Str? && v.s != ""
    ensures forall i :: 0 <= i < |r| ==> r[i].path == [f.key]
  {
    if v == Undefined then [Issue([f.key], f.required)]
    else if !v.Str? then [Issue([f.key], f.invalidType)]
    else if |v.s| < 1 then [Issue([f.key], f.tooShort)]
    else []
  }

  /** `z.number({...}).int(...).min(0, ...)` on `type`: both refinements run on any number. */
  function TypeIssues(v: Value): (r: seq<Issue>)
    ensures |r| <= 2
    ensures r == [] <==> v.Num? && IsInteger(v.x) && v.x >= 0.0
    ensures forall i :: 0 <= i < |r| ==> r[i].path == ["type"]
  {
    if v == Undefined then [Issue(["type"], TypeRequired)]
    else if !v.Num? then [Issue(["type"], TypeNotNumber)]
    else
      (if IsInteger(v.x) then [] else [Issue(["type"], TypeNotInteger)]) +
      (if v.x >= 0.0 then [] else [Issue(["type"], TypeNegative)])
  }

  /** `createCrudSchema.safeParse(v)`: the issues, in field order; none when the descriptor is accepted. */
  function CrudIssues(v: Value): seq<Issue> {
    if !v.Obj? then [Issue([], NotAnObject)]
    else
      StringIssues(NameField, Field(v, "name")) +
      StringIssues(ModuleField, Field(v, "module")) +
      StringIssues(TableField, Field(v, "table")) +
      StringIssues(ControllerField, Field(v, "controller")) +
      TypeIssues(Field(v, "type"))
  }

  /** The descriptor as the schema reads it, with the same checks as a zod shape. */
  const CrudShape: Shape := map[
    "name" := Text(1, None),
    "module" := Text(1, None),
    "table" := Text(1, None),
    "controller" := Text(1, None),
    "type" := Int(Plain, Some(0), None)]

  /** A valid descriptor: four non-empty strings and a whole number of at least 0. */
  predicate ValidCrud(v: Value) {
    v.Obj? &&
    (forall i :: 0 <= i < |StringFields| ==>
      Field(v, StringFields[i].key).Str? && Field(v, StringFields[i].key).s != "") &&
    Field(v, "type").Num? && IsInteger(Field(v, "type").x) && Field(v, "type").x >= 0.0
  }

  /** No issue is reported exactly for a valid descriptor. */
  lemma NoIssuesIffValid(v: Value)
    ensures CrudIssues(v) == [] <==> ValidCrud(v)
  {
    if v.Obj? {
      var n, mo, t, c := Field(v, "name"), Field(v, "module"), Field(v, "table"), Field(v, "controller");
      assert StringFields[0].key == "name" && StringFields[1].key == "module";
      assert StringFields[2].key == "table" && StringFields[3].key == "controller";
      if ValidCrud(v) {
        assert n.Str? && n.s != "" by { assert Field(v, StringFields[0].key) == n; }
        assert mo.Str? && mo.s != "" by { assert Field(v, StringFields[1].key) == mo; }
        assert t.Str? && t.s != "" by { assert Field(v, StringFields[2].key) == t; }
        assert c.Str? && c.s != "" by { assert Field(v, StringFields[3].key) == c; }
      }
    }
  }

  /** The issue list and the plain schema agree: no issue exactly when the zod shape accepts. */
  lemma NoIssuesIffAccepted(v: Value)
    ensures CrudIssues(v) == [] <==> Accepts(CrudShape, v, NoEmail())
  {
    NoIssuesIffValid(v);
    if Accepts(CrudShape, v, NoEmail()) {
      assert Passes(CrudShape["name"], Field(v, "name"), NoEmail());
      assert Passes(CrudShape["module"], Field(v, "module"), NoEmail());
      assert Passes(CrudShape["table"], Field(v, "table"), NoEmail());
      assert Passes(CrudShape["controller"], Field(v, "controller"), NoEmail());
      assert Passes(CrudShape["type"], Field(v, "type"), NoEmail());
    }
  }

  /** Every issue of an object input names one field of the schema; a non-object input gets the single root issue. */
  lemma IssuePaths(v: Value)
    ensures !v.Obj? ==> CrudIssues(v) == [Issue([], NotAnObject)]
    ensures v.Obj? ==> forall i :: 0 <= i < |CrudIssues(v)| ==>
      CrudIssues(v)[i].path in {["name"], ["module"], ["table"], ["controller"], ["type"]}
  {
    if v.Obj? {
      var a := StringIssues(NameField, Field(v, "name"));
      var b := StringIssues(ModuleField, Field(v, "module"));
      var c := StringIssues(TableField, Field(v, "table"));
      var d := StringIssues(ControllerField, Field(v, "controller"));
      var e := TypeIssues(Field(v, "type"));
      assert CrudIssues(v) == a + b + c + d + e;
      forall i | 0 <= i < |CrudIssues(v)|
        ensures CrudIssues(v)[i].path in {["name"], ["module"], ["table"], ["controller"], ["type"]}
      {
        if i < |a| {
          assert CrudIssues(v)[i] == a[i];
        } else if i < |a| + |b| {
          assert CrudIssues(v)[i] == b[i - |a|];
        } else if i < |a| + |b| + |c| {
          assert CrudIssues(v)[i] == c[i - |a| - |b|];
        } else if i < |a| + |b| + |c| + |d| {
          assert CrudIssues(v)[i] == d[i - |a| - |b| - |c|];
        } else {
          assert CrudIssues(v)[i] == e[i - |a| - |b| - |c| - |d|];
        }
      }
    }
  }

  /** An empty table name is reported with its own message. */
  lemma EmptyTableMessage(m: map<string, Value>)
    ensures Issue(["table"], "请输入表名") in CrudIssues(Obj(m["table" := Str("")]))
  {
    var v := Obj(m["table" := Str("")]);
    assert Field(v, "table") == Str("");
    var a := StringIssues(NameField, Field(v, "name"));
    var b := StringIssues(ModuleField, Field(v, "module"));
    assert CrudIssues(v)[|a| + |b|] == Issue(["table"], "请输入表名");
  }

  /** A missing string field is reported with its own "required" message. */
  lemma MissingFieldMessage(v: Value, i: int)
    requires v.Obj? && 0 <= i < |StringFields| && Field(v, StringFields[i].key) == Undefined
    ensures Issue([StringFields[i].key], StringFields[i].required) in CrudIssues(v)
  {
    var a := StringIssues(NameField, Field(v, "name"));
    var b := StringIssues(ModuleField, Field(v, "module"));
    var c := StringIssues(TableField, Field(v, "table"));
    var d := StringIssues(ControllerField, Field(v, "controller"));
    var e := TypeIssues(Field(v, "type"));
    assert CrudIssues(v) == a + b + c + d + e;
    if i == 0 {
      assert CrudIssues(v)[0] == a[0];
    } else if i == 1 {
      assert CrudIssues(v)[|a|] == b[0];
    } else if i == 2 {
      assert CrudIssues(v)[|a| + |b|] == c[0];
    } else {
      assert CrudIssues(v)[|a| + |b| + |c|] == d[0];
    }
  }

  /** A negative fraction as `type` is reported twice: not whole and negative. */
  lemma NegativeFractionType(m: map<string, Value>)
    ensures var issues := TypeIssues(Field(Obj(m["type" := Num(-0.5)]), "type"));
      issues == [Issue(["type"], TypeNotInteger), Issue(["type"], TypeNegative)]
    ensures Issue(["type"], TypeNotInteger) in CrudIssues(Obj(m["type" := Num(-0.5)]))
    ensures Issue(["type"], TypeNegative) in CrudIssues(Obj(m["type" := Num(-0.5)]))
  {
    var v := Obj(m["type" := Num(-0.5)]);
    assert Field(v, "type") == Num(-0.5);
    assert (-0.5).Floor == -1;
    assert !IsInteger(-0.5);
    var e := TypeIssues(Field(v, "type"));
    var s := StringIssues(NameField, Field(v, "name")) +
      StringIssues(ModuleField, Field(v, "module")) +
      StringIssues(TableField, Field(v, "table")) +
      StringIssues(ControllerField, Field(v, "controller"));
    assert CrudIssues(v) == s + e;
    assert CrudIssues(v)[|s|] == e[0] && CrudIssues(v)[|s| + 1] == e[1];
  }
}
