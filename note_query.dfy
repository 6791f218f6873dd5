/**
 * The SQL that `NoteService` builds for the note table `oa_note`: the list
 * query with its search, filters, sort order and pagination, the count query
 * beside it, the partial UPDATE, and the result rule of DELETE. The database
 * that runs these statements is not modelled; a statement is its text plus
 * its positional parameters.
 */
module NoteQuery {
  import opened Wrappers
  import opened JsValue
  import opened Seqs
  import opened Text

  /** The list query without conditions: the sixteen columns of the note table. */
  const SelectNotes: string := "SELECT id, cate_id, title, content, " + "src, status, file_ids, role_type, " +
    "role_dids, role_uids, start_time, " + "end_time, admin_id, create_time, " + "update_time, delete_time FROM oa_note"

  const CountNotes: string := "SELECT COUNT(*) as total FROM oa_note"

  /** The free-text search: a LIKE on each of six columns, OR-ed together. */
  const SearchCondition: string := "(title LIKE " + "?" + " OR content LIKE " + "?" + " OR src LIKE " + "?" +
    " OR file_ids LIKE " + "?" + " OR role_dids LIKE " + "?" + " OR role_uids LIKE " + "?" + ")"

  /**
   * The value bound to every LIKE placeholder. The source writes it as a
   * template literal without interpolation, so it is this fixed text whatever
   * the search text is.
   */
  const SearchValue: Value := Str("%search%")

  /** The query object `getNoteList` destructures; `None` is a property that is `undefined`. */
  datatype ListQuery = ListQuery(
    page: Option<int>,
    limit: Option<int>,
    search: Value,
    filters: Option<seq<(string, Value)>>,  // `Object.entries(filters)`, in that order
    sortBy: Option<string>,
    sortOrder: Option<string>)

  function PageOf(q: ListQuery): int { q.page.GetOr(1) }
  function LimitOf(q: ListQuery): int { q.limit.GetOr(10) }
  function FiltersOf(q: ListQuery): seq<(string, Value)> { q.filters.GetOr([]) }
  function SortByOf(q: ListQuery): string { q.sortBy.GetOr("id") }
  function SortOrderOf(q: ListQuery): string { q.sortOrder.GetOr("DESC") }

  /** A filter value takes part in the WHERE clause unless it is undefined, null or the empty string. */
  predicate IsPresent(v: Value) {
    v != Undefined && v != Null && v != Str("")
  }

  predicate EntryPresent(e: (string, Value)) {
    IsPresent(e.1)
  }

  /** One `key = ?` condition per entry. */
  function EqualityConds(entries: seq<(string, Value)>): seq<string> {
    seq(|entries|, j requires 0 <= j < |entries| => entries[j].0 + " = " + "?")
  }

  function EntryValues(entries: seq<(string, Value)>): seq<Value> {
    seq(|entries|, j requires 0 <= j < |entries| => entries[j].1)
  }

  function SearchConds(search: Value): seq<string> {
    if Truthy(search) then [SearchCondition] else []
  }

  function SearchParams(search: Value): seq<Value> {
    if Truthy(search) then seq(6, _ => SearchValue) else []
  }

  /** The conditions of the list query: the search condition first, then one per present filter. */
  function Conditions(q: ListQuery): seq<string> {
    SearchConds(q.search) + EqualityConds(Filter(FiltersOf(q), EntryPresent))
  }

  /** The parameters the conditions bind, in placeholder order. */
  function ConditionParams(q: ListQuery): seq<Value> {
    SearchParams(q.search) + EntryValues(Filter(FiltersOf(q), EntryPresent))
  }

  function WhereClause(conds: seq<string>): (w: string)
    ensures w == "" <==> conds == []
  {
    if |conds| > 0 then " WHERE " + Join(conds, " AND ") else ""
  }

  function OrderClause(sortBy: string, sortOrder: string): string {
    " ORDER BY " + sortBy + " " + sortOrder + " LIMIT " + "?" + " OFFSET " + "?"
  }

  /** The two statements of `getNoteList` and the pagination numbers it reports. */
  datatype ListPlan = ListPlan(
    sql: string, params: seq<Value>,
    countSql: string, countParams: seq<Value>,
    page: int, limit: int, offset: int)

  /**
   * `getNoteList` up to the point where it runs its two queries: defaults,
   * offset, conditions, WHERE clause, ORDER BY and LIMIT/OFFSET, and the count
   * query receiving the list parameters without the last two.
   */
  method BuildListQuery(q: ListQuery) returns (plan: ListPlan)
    ensures plan.page == PageOf(q) && plan.limit == LimitOf(q)
    ensures plan.offset == (PageOf(q) - 1) * LimitOf(q)
    ensures plan.sql == SelectNotes + WhereClause(Conditions(q)) + OrderClause(SortByOf(q), SortOrderOf(q))
    ensures plan.countSql == CountNotes + WhereClause(Conditions(q))
    ensures plan.params == ConditionParams(q) + [Num(plan.limit as real), Num(plan.offset as real)]
    ensures plan.countParams == ConditionParams(q)
  {
    var page, limit, sortBy, sortOrder := PageOf(q), LimitOf(q), SortByOf(q), SortOrderOf(q);
    var offset := (page - 1) * limit;
    var sql := SelectNotes;
    var countSql := CountNotes;
    var conditions, params := AddSearch(q.search);
    var filterConditions, filterParams := AddFilters(FiltersOf(q));
    conditions, params := conditions + filterConditions, params + filterParams;

    if |conditions| > 0 {
      var whereClause := " WHERE " + Join(conditions, " AND ");
      sql := sql + whereClause;
      countSql := countSql + whereClause;
    }

    sql := sql + OrderClause(sortBy, sortOrder);
    params := params + [Num(limit as real), Num(offset as real)];
    var countParams := params[..|params| - 2];
    assert countParams == ConditionParams(q);
    plan := ListPlan(sql, params, countSql, countParams, page, limit, offset);
  }

  /** The search step of `getNoteList`: a truthy search pushes its condition and six copies of its value. */
  method AddSearch(search: Value) returns (conditions: seq<string>, params: seq<Value>)
    ensures conditions == SearchConds(search) && params == SearchParams(search)
  {
    conditions, params := [], [];
    if Truthy(search) {
      conditions := conditions + [SearchCondition];
      var k := 0;
      while k < 6
        invariant 0 <= k <= 6
        invariant |params| == k && forall j :: 0 <= j < k ==> params[j] == SearchValue
      {
        params := params + [SearchValue];
        k := k + 1;
      }
    }
  }

  /** The filter step of `getNoteList`: each present entry pushes `key = ?` and its value, in entry order. */
  method AddFilters(filters: seq<(string, Value)>) returns (conditions: seq<string>, params: seq<Value>)
    ensures conditions == EqualityConds(Filter(filters, EntryPresent))
    ensures params == EntryValues(Filter(filters, EntryPresent))
  {
    conditions, params := [], [];
    var i := 0;
    while i < |filters|
      invariant 0 <= i <= |filters|
      invariant conditions == EqualityConds(Filter(filters[..i], EntryPresent))
      invariant params == EntryValues(Filter(filters[..i], EntryPresent))
    {
      var (key, value) := filters[i];
      KeptSnoc(filters, i);
      if IsPresent(value) {
        conditions := conditions + [key + " = " + "?"];
        params := params + [value];
      }
      i := i + 1;
    }
    assert filters[..i] == filters;
  }

  /** One loop step over the filter entries: entry `i` adds its condition and value when present. */
  lemma KeptSnoc(filters: seq<(string, Value)>, i: int)
    requires 0 <= i < |filters|
    ensures EqualityConds(Filter(filters[..i + 1], EntryPresent)) ==
      EqualityConds(Filter(filters[..i], EntryPresent)) + (if EntryPresent(filters[i]) then [filters[i].0 + " = " + "?"] else [])
    ensures EntryValues(Filter(filters[..i + 1], EntryPresent)) ==
      EntryValues(Filter(filters[..i], EntryPresent)) + (if EntryPresent(filters[i]) then [filters[i].1] else [])
  {
    assert filters[..i + 1] == filters[..i] + [filters[i]];
    FilterSnoc(filters[..i], filters[i], EntryPresent);
  }

  lemma SelectPiecesFree()
    ensures Free("SELECT id, cate_id, title, content, ", '?') && Free("src, status, file_ids, role_type, ", '?')
    ensures Free("role_dids, role_uids, start_time, ", '?')
  {
  }

  lemma SelectTailFree()
    ensures Free("end_time, admin_id, create_time, ", '?') && Free("update_time, delete_time FROM oa_note", '?')
    ensures Free(CountNotes, '?')
  {
  }

  /** The SELECT list and the count query hold no placeholder. */
  lemma FixedTextHasNoPlaceholder()
    ensures Free(SelectNotes, '?') && Free(CountNotes, '?')
  {
    var a, b, c, d, e := "SELECT id, cate_id, title, content, ", "src, status, file_ids, role_type, ",
      "role_dids, role_uids, start_time, ", "end_time, admin_id, create_time, ", "update_time, delete_time FROM oa_note";
    SelectPiecesFree();
    SelectTailFree();
    FreeConcat(a, b, '?');
    FreeConcat(a + b, c, '?');
    FreeConcat(a + b + c, d, '?');
    FreeConcat(a + b + c + d, e, '?');
  }

  /** The ORDER BY clause holds the two placeholders of LIMIT and OFFSET. */
  lemma OrderPlaceholders(sortBy: string, sortOrder: string)
    requires Free(sortBy, '?') && Free(sortOrder, '?')
    ensures Count(OrderClause(sortBy, sortOrder), '?') == 2
  {
    var s1 := " ORDER BY " + sortBy + " " + sortOrder + " LIMIT ";
    FreeConcat(" ORDER BY " + sortBy, " ", '?');
    FreeConcat(" ORDER BY ", sortBy, '?');
    FreeConcat(" ORDER BY " + sortBy + " ", sortOrder, '?');
    FreeConcat(" ORDER BY " + sortBy + " " + sortOrder, " LIMIT ", '?');
    CountLast(s1, '?');
    CountLast(" OFFSET ", '?');
    CountAppend(s1 + "?", " OFFSET " + "?", '?');
    assert OrderClause(sortBy, sortOrder) == (s1 + "?") + (" OFFSET " + "?");
  }

  /** Six `?`-free pieces, each followed by a placeholder, and a `?`-free end hold six placeholders. */
  lemma SixPlaceholders(a: string, b: string, c: string, d: string, e: string, f: string, z: string)
    requires Free(a, '?') && Free(b, '?') && Free(c, '?') && Free(d, '?') && Free(e, '?') && Free(f, '?')
    requires Free(z, '?')
    ensures Count(a + "?" + b + "?" + c + "?" + d + "?" + e + "?" + f + "?" + z, '?') == 6
  {
    var q := "?";
    assert Count(q, '?') == 1 by { assert q[1..] == []; }
    CountFree(a, '?'); CountFree(b, '?'); CountFree(c, '?'); CountFree(d, '?'); CountFree(e, '?');
    CountFree(f, '?'); CountFree(z, '?');
    CountAppend(a, q, '?');
    CountAppend(a + q, b, '?');
    CountAppend(a + q + b, q, '?');
    CountAppend(a + q + b + q, c, '?');
    CountAppend(a + q + b + q + c, q, '?');
    CountAppend(a + q + b + q + c + q, d, '?');
    CountAppend(a + q + b + q + c + q + d, q, '?');
    CountAppend(a + q + b + q + c + q + d + q, e, '?');
    CountAppend(a + q + b + q + c + q + d + q + e, q, '?');
    CountAppend(a + q + b + q + c + q + d + q + e + q, f, '?');
    CountAppend(a + q + b + q + c + q + d + q + e + q + f, q, '?');
    CountAppend(a + q + b + q + c + q + d + q + e + q + f + q, z, '?');
  }

  lemma SearchPiecesFree()
    ensures Free("(title LIKE ", '?') && Free(" OR content LIKE ", '?') && Free(" OR src LIKE ", '?')
    ensures Free(" OR file_ids LIKE ", '?') && Free(" OR role_dids LIKE ", '?') && Free(" OR role_uids LIKE ", '?')
    ensures Free(")", '?')
  {
  }

  /** The search condition holds exactly six placeholders, one per LIKE. */
  lemma SearchConditionPlaceholders()
    ensures Count(SearchCondition, '?') == 6
  {
    SearchPiecesFree();
    SixPlaceholders("(title LIKE ", " OR content LIKE ", " OR src LIKE ", " OR file_ids LIKE ",
      " OR role_dids LIKE ", " OR role_uids LIKE ", ")");
  }

  /** Filter keys that contain no `?` give one placeholder per `key = ?` condition. */
  lemma EqualityCondsPlaceholders(entries: seq<(string, Value)>)
    requires forall e :: e in entries ==> Free(e.0, '?')
    ensures CountAll(EqualityConds(entries), '?') == |entries|
  {
    var conds := EqualityConds(entries);
    forall j | 0 <= j < |conds|
      ensures Count(conds[j], '?') == 1
    {
      assert entries[j] in entries;
      CountLast(entries[j].0 + " = ", '?');
    }
    CountAllOnes(conds, '?');
  }

  lemma ConnectorsFree()
    ensures Free(" WHERE ", '?') && Free(" AND ", '?')
  {
  }

  lemma {:induction false} ConditionPlaceholders(q: ListQuery)
    requires forall e :: e in FiltersOf(q) ==> Free(e.0, '?')
    ensures Count(WhereClause(Conditions(q)), '?') == |ConditionParams(q)|
  {
    var kept := Filter(FiltersOf(q), EntryPresent);
    assert forall e :: e in kept ==> e in FiltersOf(q);
    EqualityCondsPlaceholders(kept);
    CountAllAppend(SearchConds(q.search), EqualityConds(kept), '?');
    if Truthy(q.search) {
      SearchConditionPlaceholders();
      assert CountAll(SearchConds(q.search), '?') == 6 by {
        assert SearchConds(q.search)[1..] == [];
      }
    }
    var conds := Conditions(q);
    if |conds| > 0 {
      ConnectorsFree();
      CountJoin(conds, " AND ", '?');
      CountFree(" WHERE ", '?');
      CountAppend(" WHERE ", Join(conds, " AND "), '?');
    }
  }

  /**
   * In both statements of the list query the number of `?` placeholders is
   * the number of parameters, provided filter keys and the sort field and
   * order contain no `?`.
   */
  lemma {:induction false} ListPlaceholders(q: ListQuery)
    requires forall e :: e in FiltersOf(q) ==> Free(e.0, '?')
    requires Free(SortByOf(q), '?') && Free(SortOrderOf(q), '?')
    ensures Count(SelectNotes + WhereClause(Conditions(q)) + OrderClause(SortByOf(q), SortOrderOf(q)), '?')
      == |ConditionParams(q)| + 2
    ensures Count(CountNotes + WhereClause(Conditions(q)), '?') == |ConditionParams(q)|
  {
    ConditionPlaceholders(q);
    FixedTextHasNoPlaceholder();
    OrderPlaceholders(SortByOf(q), SortOrderOf(q));
    StatementPlaceholders(SelectNotes, WhereClause(Conditions(q)), OrderClause(SortByOf(q), SortOrderOf(q)));
    StatementPlaceholders(CountNotes, WhereClause(Conditions(q)), "");
  }

  /** A `?`-free head adds no placeholder to the parts after it. */
  lemma StatementPlaceholders(head: string, where: string, tail: string)
    requires Free(head, '?')
    ensures Count(head + where + tail, '?') == Count(where, '?') + Count(tail, '?')
    ensures Count(head + where, '?') == Count(where, '?')
  {
    CountFree(head, '?');
    CountAppend3(head, where, tail, '?');
    CountAppend(head, where, '?');
  }

  /**
   * A truthy search contributes one condition and six parameters, each the
   * fixed text `%search%`; which text was searched for makes no difference.
   */
  lemma SearchParamsIgnoreText(q: ListQuery, a: string, b: string)
    requires a != "" && b != ""
    ensures Conditions(q.(search := Str(a))) == Conditions(q.(search := Str(b)))
    ensures ConditionParams(q.(search := Str(a))) == ConditionParams(q.(search := Str(b)))
  {
  }

  /**
   * The filter conditions and their parameters are the filter entries whose
   * value is present, in entry order: position `j` of both comes from entry
   * `idx[j]`, and an entry is used exactly when its value is present.
   */
  lemma FilterConditionsSelect(entries: seq<(string, Value)>) returns (idx: seq<int>)
    ensures |idx| == |EqualityConds(Filter(entries, EntryPresent))| == |EntryValues(Filter(entries, EntryPresent))|
    ensures StrictlyIncreasing(idx)
    ensures forall j :: 0 <= j < |idx| ==>
      0 <= idx[j] < |entries| &&
      EqualityConds(Filter(entries, EntryPresent))[j] == entries[idx[j]].0 + " = ?" &&
      EntryValues(Filter(entries, EntryPresent))[j] == entries[idx[j]].1
    ensures forall i :: 0 <= i < |entries| ==> (IsPresent(entries[i].1) <==> i in idx)
  {
    idx := FilterSelection(entries, EntryPresent);
  }

  /**
   * `Math.ceil(total / limit)` for a count `total`: `None` where the quotient
   * is not finite (a zero limit).
   */
  function TotalPages(total: nat, limit: int): (r: Option<int>)
    ensures limit == 0 <==> r.None?
    ensures limit > 0 ==> (r.value - 1) * limit < total <= r.value * limit
    ensures limit < 0 ==> r.value * limit <= total < (r.value - 1) * limit
  {
    if limit > 0 then
      CeilingBounds(total, limit);
      Some((total + limit - 1) / limit)
    else if limit < 0 then
      NegatedQuotientBounds(total, limit);
      Some(-(total / -limit))
    else None
  }

  /** `Math.ceil(total / limit)` for a positive limit, written with Euclidean division. */
  lemma CeilingBounds(total: nat, limit: int)
    requires limit > 0
    ensures var n := (total + limit - 1) / limit; (n - 1) * limit < total <= n * limit
  {
    var n := (total + limit - 1) / limit;
    DivBounds(total + limit - 1, limit);
    assert (n - 1) * limit == n * limit - limit;
  }

  /** `Math.ceil(total / limit)` for a negative limit. */
  lemma NegatedQuotientBounds(total: nat, limit: int)
    requires limit < 0
    ensures var n := -(total / -limit); n * limit <= total < (n - 1) * limit
  {
    var q := total / -limit;
    DivBounds(total, -limit);
    assert -q * limit == q * -limit;
    assert (-q - 1) * limit == q * -limit + -limit;
  }

  lemma DivBounds(a: int, b: int)
    requires b > 0
    ensures (a / b) * b <= a < (a / b) * b + b
  {
  }

  /**
   * With page and limit at least 1, a page of the list starts before the end
   * of the data exactly when its number is at most the reported page count.
   */
  lemma PageStartsWithinTotal(page: int, limit: int, total: nat)
    requires page >= 1 && limit >= 1
    ensures (page - 1) * limit < total <==> page <= TotalPages(total, limit).value
  {
    var n := TotalPages(total, limit).value;
    if page <= n {
      MulMonotone(page - 1, n - 1, limit);
    } else {
      MulMonotone(n, page - 1, limit);
    }
  }

  lemma MulMonotone(a: int, b: int, c: int)
    requires a <= b && c >= 0
    ensures a * c <= b * c
  {
  }

  /** What `updateNote` does: fetch the row only, or issue an UPDATE first. */
  datatype UpdatePlan = FetchOnly | Update(sql: string, params: seq<Value>)

  /** `UPDATE table SET a = ?, b = ? WHERE id = ?`. */
  function UpdateSql(table: string, sets: seq<string>): string {
    "UPDATE " + table + " SET " + Join(sets, ", ") + " WHERE id = " + "?"
  }

  lemma UpdateSqlPlaceholders(table: string, sets: seq<string>)
    requires Free(table, '?')
    requires CountAll(sets, '?') == |sets|
    ensures Count(UpdateSql(table, sets), '?') == |sets| + 1
  {
    UpdatePiecesFree();
    CountJoin(sets, ", ", '?');
    JoinedPlaceholders("UPDATE ", table, " SET ", Join(sets, ", "), " WHERE id = ");
  }

  lemma UpdatePiecesFree()
    ensures Free("UPDATE ", '?') && Free(" SET ", '?') && Free(", ", '?') && Free(" WHERE id = ", '?')
  {
  }

  /** `a + b + c + d + e + "?"` with `a`, `b`, `c`, `e` free of `?` holds one placeholder more than `d`. */
  lemma JoinedPlaceholders(a: string, b: string, c: string, d: string, e: string)
    requires Free(a, '?') && Free(b, '?') && Free(c, '?') && Free(e, '?')
    ensures Count(a + b + c + d + e + "?", '?') == Count(d, '?') + 1
  {
    FreeConcat(a, b, '?');
    FreeConcat(a + b, c, '?');
    CountFree(a + b + c, '?');
    CountAppend(a + b + c, d, '?');
    CountLast(e, '?');
    CountAppend(a + b + c + d, e + "?", '?');
    assert a + b + c + d + e + "?" == (a + b + c + d) + (e + "?");
  }

  predicate EntryDefined(e: (string, Value)) {
    e.1 != Undefined
  }

  /**
   * `updateNote(id, data)`: the entries of `data` whose value is not
   * undefined (null is kept) become `k = ?` items of the SET list, joined by
   * `, `, bound to their values in entry order followed by the id.
   */
  function UpdateStatement(id: int, data: seq<(string, Value)>): (r: UpdatePlan)
    ensures r.FetchOnly? <==> forall i :: 0 <= i < |data| ==> data[i].1 == Undefined
    ensures r.Update? ==> |r.params| >= 2 && r.params[|r.params| - 1] == Num(id as real)
    ensures r.Update? ==> Undefined !in r.params[..|r.params| - 1]
  {
    var fields := Filter(data, EntryDefined);
    FirstOfFilter(data, EntryDefined);
    if |fields| == 0 then FetchOnly
    else
      var values := EntryValues(fields);
      assert Undefined !in values by {
        forall j | 0 <= j < |values| ensures values[j] != Undefined {
          assert fields[j] in fields;
        }
      }
      assert (values + [Num(id as real)])[..|values|] == values;
      Update(UpdateSql("oa_note", EqualityConds(fields)), values + [Num(id as real)])
  }

  /** The UPDATE has as many placeholders as parameters, provided no key contains `?`. */
  lemma UpdatePlaceholders(id: int, data: seq<(string, Value)>)
    requires forall e :: e in data ==> Free(e.0, '?')
    requires UpdateStatement(id, data).Update?
    ensures Count(UpdateStatement(id, data).sql, '?') == |UpdateStatement(id, data).params|
  {
    var fields := Filter(data, EntryDefined);
    assert forall e :: e in fields ==> e in data;
    EqualityCondsPlaceholders(fields);
    UpdateSqlPlaceholders("oa_note", EqualityConds(fields));
  }

  /**
   * The statement is `UPDATE oa_note SET <sets> WHERE id = ?`, where the SET
   * items are `k = ?` for the entries whose value is not undefined, in entry
   * order, and the parameters are those entries' values; in particular an
   * entry whose value is null is written.
   */
  lemma UpdateFieldsSelect(id: int, data: seq<(string, Value)>) returns (idx: seq<int>, sets: seq<string>)
    requires UpdateStatement(id, data).Update?
    ensures UpdateStatement(id, data).sql == "UPDATE oa_note SET " + Join(sets, ", ") + " WHERE id = ?"
    ensures |sets| == |idx| == |UpdateStatement(id, data).params| - 1 && StrictlyIncreasing(idx)
    ensures forall j :: 0 <= j < |idx| ==>
      0 <= idx[j] < |data| && sets[j] == data[idx[j]].0 + " = ?" && UpdateStatement(id, data).params[j] == data[idx[j]].1
    ensures forall i :: 0 <= i < |data| ==> (data[i].1 != Undefined <==> i in idx)
  {
    var fields := Filter(data, EntryDefined);
    idx := FilterSelection(data, EntryDefined);
    sets := EqualityConds(fields);
    UpdateShape(id, data);
    UpdateSqlText(sets);
    var params := UpdateStatement(id, data).params;
    assert params == EntryValues(fields) + [Num(id as real)];
    forall j | 0 <= j < |idx|
      ensures sets[j] == data[idx[j]].0 + " = ?" && params[j] == data[idx[j]].1
    {
      assert fields[j] == data[idx[j]];
    }
  }

  /** An UPDATE plan holds the SET list and the values of the entries that are not undefined, then the id. */
  lemma UpdateShape(id: int, data: seq<(string, Value)>)
    requires UpdateStatement(id, data).Update?
    ensures var fields := Filter(data, EntryDefined);
      UpdateStatement(id, data) == Update(UpdateSql("oa_note", EqualityConds(fields)), EntryValues(fields) + [Num(id as real)])
  {
  }

  /** The UPDATE of `oa_note`, spelt out. */
  lemma UpdateSqlText(sets: seq<string>)
    ensures UpdateSql("oa_note", sets) == "UPDATE oa_note SET " + Join(sets, ", ") + " WHERE id = ?"
  {
    var j := Join(sets, ", ");
    assert "UPDATE " + "oa_note" + " SET " == "UPDATE oa_note SET ";
    assert " WHERE id = " + "?" == " WHERE id = ?";
    assert "UPDATE " + "oa_note" + " SET " + j + " WHERE id = " + "?" == ("UPDATE " + "oa_note" + " SET ") + j + (" WHERE id = " + "?");
  }

  /** A row of `oa_note`: its id and the other columns. */
  datatype NoteRow = NoteRow(id: int, columns: map<string, Value>)

  /**
   * `deleteNote(id)`: DELETE removes every row with that id, and the method
   * reports `affectedRows > 0`.
   */
  function DeleteNote(table: seq<NoteRow>, id: int): (r: (seq<NoteRow>, bool))
    ensures r.1 <==> exists i :: 0 <= i < |table| && table[i].id == id
    ensures forall row :: row in r.0 <==> row in table && row.id != id
  {
    var remaining := Filter(table, (row: NoteRow) => row.id != id);
    FilterKeepsAll(table, (row: NoteRow) => row.id != id);
    forall row ensures row in remaining <==> row in table && row.id != id {
      FilterMembership(table, (row: NoteRow) => row.id != id, row);
    }
    (remaining, |table| - |remaining| > 0)
  }
}
