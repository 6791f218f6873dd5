/**
 * The mock back end that the generated CRUD page ships with: a generator of
 * random records, a list handler that filters them by name, type and area and
 * returns one page, and a delete handler that always succeeds. The random
 * generator of the mocking library is a parameter: `random(i)` is what it
 * draws for the `i`-th record.
 */
module MockList {
  import opened Wrappers
  import opened JsValue
  import opened Seqs
  import opened Text

  datatype Record = Record(id: string, name: string, recordType: string, area: string)

  /** What the random generator yields for one record: an id, a name, which of the two types, a county. */
  datatype Draw = Draw(id: string, name: string, secondType: bool, county: string)

  function RecordOf(d: Draw): (r: Record)
    ensures r.recordType == "type1" || r.recordType == "type2"
  {
    Record(d.id, d.name, if d.secondType then "type2" else "type1", d.county)
  }

  /** `generateData(count)`: one record per iteration of its loop, pushed in order. */
  method GenerateData(count: int, random: nat -> Draw) returns (result: seq<Record>)
    ensures |result| == if count > 0 then count else 0
    ensures forall i :: 0 <= i < |result| ==> result[i] == RecordOf(random(i))
    ensures forall i :: 0 <= i < |result| ==> result[i].recordType in {"type1", "type2"}
  {
    result := [];
    var i := 0;
    while i < count
      invariant 0 <= i && (count > 0 ==> i <= count) && (count <= 0 ==> i == 0)
      invariant |result| == i
      invariant forall j :: 0 <= j < i ==> result[j] == RecordOf(random(j))
    {
      result := result + [RecordOf(random(i))];
      i := i + 1;
    }
  }

  /** The query string of the request, after `URLSearchParams`: each name with its first value. */
  type Query = map<string, string>

  /** `searchParams.get(k)`: `None` for a missing parameter (JavaScript's `null`). */
  function Param(query: Query, k: string): Option<string> {
    if k in query then Some(query[k]) else None
  }

  /**
   * `Number(v) || d`: the number the parameter spells, unless it is missing
   * (`Number(null)` is 0), spells 0, or is not a number.
   */
  function NumberOr(v: Option<string>, d: int): (r: int)
    ensures v.None? ==> r == d
    ensures v.Some? && NumberOfString(v.value).None? ==> r == d
    ensures v.Some? && NumberOfString(v.value).Some? ==>
      r == (if NumberOfString(v.value).value == 0 then d else NumberOfString(v.value).value)
  {
    match v
    case None => d
    case Some(s) =>
      match NumberOfString(s)
      case Some(n) => if n != 0 then n else d
      case None => d
  }

  /** A page number written in decimal is read back as itself; the default replaces only 0. */
  lemma NumberOrDecimal(n: nat, d: int)
    ensures NumberOr(Some(DecimalString(n)), d) == if n == 0 then d else n
  {
    NumberOfDecimalString(n);
  }

  function NameTest(name: string): Record -> bool {
    (r: Record) => Includes(r.name, name)
  }

  function TypeTest(t: string): Record -> bool {
    (r: Record) => r.recordType == t
  }

  function AreaTest(area: string): Record -> bool {
    (r: Record) => Includes(r.area, area)
  }

  /** The three filters of the list handler, each applied only when its text is non-empty. */
  function FilterData(all: seq<Record>, name: string, t: string, area: string): (r: seq<Record>)
    ensures |r| <= |all|
    ensures forall x :: x in r ==> x in all && Matches(x, name, t, area)
  {
    var byName := if name != "" then Filter(all, NameTest(name)) else all;
    var byType := if t != "" then Filter(byName, TypeTest(t)) else byName;
    if area != "" then Filter(byType, AreaTest(area)) else byType
  }

  /** A record passes the search form: every non-empty field of the form matches (substring for name and area, equality for type). */
  predicate Matches(r: Record, name: string, t: string, area: string) {
    (name != "" ==> Includes(r.name, name)) &&
    (t != "" ==> r.recordType == t) &&
    (area != "" ==> Includes(r.area, area))
  }

  function MatchTest(name: string, t: string, area: string): Record -> bool {
    (r: Record) => Matches(r, name, t, area)
  }

  function Guarded(on: bool, p: Record -> bool): Record -> bool {
    (r: Record) => !on || p(r)
  }

  /** A filter that is switched off keeps every row. */
  lemma GuardedFilter(s: seq<Record>, on: bool, p: Record -> bool)
    ensures Filter(s, Guarded(on, p)) == if on then Filter(s, p) else s
  {
    if on {
      FilterExt(s, Guarded(on, p), p);
    } else {
      FilterAll(s, Guarded(on, p));
    }
  }

  /** The three guarded tests together are the search form. */
  lemma GuardsAreForm(all: seq<Record>, name: string, t: string, area: string)
    ensures var p1, p2, p3 := Guarded(name != "", NameTest(name)), Guarded(t != "", TypeTest(t)), Guarded(area != "", AreaTest(area));
      forall i :: 0 <= i < |all| ==> And(And(p1, p2), p3)(all[i]) == MatchTest(name, t, area)(all[i])
  {
  }

  /** The three filters in a row keep what one filter by the whole search form keeps. */
  lemma {:induction false} FilterDataIsOneFilter(all: seq<Record>, name: string, t: string, area: string)
    ensures FilterData(all, name, t, area) == Filter(all, MatchTest(name, t, area))
  {
    var p1, p2, p3 := Guarded(name != "", NameTest(name)), Guarded(t != "", TypeTest(t)), Guarded(area != "", AreaTest(area));
    GuardedFilter(all, name != "", NameTest(name));
    var s1 := Filter(all, p1);
    GuardedFilter(s1, t != "", TypeTest(t));
    var s2 := Filter(s1, p2);
    GuardedFilter(s2, area != "", AreaTest(area));
    assert FilterData(all, name, t, area) == Filter(s2, p3);
    FilterTwice(all, p1, p2);
    FilterTwice(all, And(p1, p2), p3);
    GuardsAreForm(all, name, t, area);
    FilterExt(all, And(And(p1, p2), p3), MatchTest(name, t, area));
  }

  /**
   * The filtered rows are exactly the rows that match the search form, in
   * their original order: position `j` of the result is row `idx[j]`.
   */
  lemma FilteredRows(all: seq<Record>, name: string, t: string, area: string) returns (idx: seq<int>)
    ensures |idx| == |FilterData(all, name, t, area)| && StrictlyIncreasing(idx)
    ensures forall j :: 0 <= j < |idx| ==> 0 <= idx[j] < |all| && FilterData(all, name, t, area)[j] == all[idx[j]]
    ensures forall i :: 0 <= i < |all| ==> (Matches(all[i], name, t, area) <==> i in idx)
  {
    FilterDataIsOneFilter(all, name, t, area);
    idx := FilterSelection(all, MatchTest(name, t, area));
  }

  /** An index argument of `Array.prototype.slice`: negative counts from the end, then clamped to the length. */
  function SliceIndex(k: int, len: nat): (r: nat)
    ensures r <= len
    ensures 0 <= k <= len ==> r == k
  {
    if k < 0 then (if len + k < 0 then 0 else len + k) else if k > len then len else k
  }

  /** `s.slice(start, end)`. */
  function JsSlice<T>(s: seq<T>, start: int, end: int): (r: seq<T>)
    ensures |r| <= |s|
    ensures forall x :: x in r ==> x in s
  {
    var from, to := SliceIndex(start, |s|), SliceIndex(end, |s|);
    if from < to then s[from..to] else []
  }

  /** Page `current` of `rows` with `pageSize` rows per page. */
  function Page<T>(rows: seq<T>, current: int, pageSize: int): (page: seq<T>)
    ensures |page| <= |rows|
    ensures forall x :: x in page ==> x in rows
  {
    JsSlice(rows, (current - 1) * pageSize, current * pageSize)
  }

  /**
   * For positive page numbers and sizes a page holds at most `pageSize` rows,
   * namely the rows from `(current - 1) * pageSize` on, and is full exactly
   * when enough rows follow.
   */
  lemma PageContents<T>(rows: seq<T>, current: int, pageSize: int)
    requires current >= 1 && pageSize >= 1
    ensures var page, start := Page(rows, current, pageSize), (current - 1) * pageSize;
      |page| <= pageSize &&
      (forall k :: 0 <= k < |page| ==> page[k] == rows[start + k]) &&
      (|page| == pageSize <==> start + pageSize <= |rows|) &&
      (page == [] <==> |rows| <= start)
  {
    var start := (current - 1) * pageSize;
    assert start >= 0 by { MulNonNegative(current - 1, pageSize); }
    assert current * pageSize == start + pageSize;
  }

  lemma MulNonNegative(a: int, b: int)
    requires a >= 0 && b >= 0
    ensures a * b >= 0
  {
  }

  /** Every filtered row is on exactly one page: row `i` is entry `i % pageSize` of page `i / pageSize + 1`. */
  lemma RowOnItsPage<T>(rows: seq<T>, pageSize: int, i: int)
    requires pageSize >= 1 && 0 <= i < |rows|
    ensures var page := Page(rows, i / pageSize + 1, pageSize);
      i % pageSize < |page| && page[i % pageSize] == rows[i]
  {
    var q, r := i / pageSize, i % pageSize;
    DivMod(i, pageSize);
    PageEnds(q, pageSize);
    SliceAt(rows, q * pageSize, q * pageSize + pageSize, r);
  }

  lemma DivMod(i: int, n: int)
    requires n >= 1 && i >= 0
    ensures (i / n) * n + i % n == i && 0 <= i % n < n && i / n >= 0
  {
  }

  lemma PageEnds(q: int, pageSize: int)
    requires q >= 0 && pageSize >= 1
    ensures (q + 1 - 1) * pageSize == q * pageSize >= 0 && (q + 1) * pageSize == q * pageSize + pageSize
  {
    MulNonNegative(q, pageSize);
  }

  /** Entry `k` of a slice is the row `k` places after its start, while that is before its end and the data's. */
  lemma SliceAt<T>(rows: seq<T>, start: int, end: int, k: int)
    requires 0 <= start && 0 <= k && start + k < end && start + k < |rows|
    ensures k < |JsSlice(rows, start, end)| && JsSlice(rows, start, end)[k] == rows[start + k]
  {
  }

  /** The payload of `successResponseWrap`. */
  datatype Payload = ListData(list: seq<Record>, total: nat) | NoData

  datatype MockResponse = Success(payload: Payload)

  /** The list response for a query over the rows the generator produced. */
  function ListResponse(query: Query, all: seq<Record>): (r: MockResponse)
    ensures r.payload.ListData? && r.payload.total <= |all|
    ensures forall x :: x in r.payload.list ==> x in all
    ensures forall x :: x in r.payload.list ==>
      Matches(x, Param(query, "name").GetOr(""), Param(query, "type").GetOr(""), Param(query, "area").GetOr(""))
  {
    var current := NumberOr(Param(query, "current"), 1);
    var pageSize := NumberOr(Param(query, "pageSize"), 10);
    var filtered := FilterData(all, Param(query, "name").GetOr(""), Param(query, "type").GetOr(""),
      Param(query, "area").GetOr(""));
    Success(ListData(Page(filtered, current, pageSize), |filtered|))
  }

  /**
   * The answer's total counts the rows the form keeps, and its list is page
   * `current` of those rows, with `current` and `pageSize` read from the
   * query as the handler reads them.
   */
  lemma ListResponsePage(query: Query, all: seq<Record>, current: int, pageSize: int, filtered: seq<Record>)
    requires current == NumberOr(Param(query, "current"), 1) && pageSize == NumberOr(Param(query, "pageSize"), 10)
    requires filtered == FilterData(all, Param(query, "name").GetOr(""), Param(query, "type").GetOr(""),
      Param(query, "area").GetOr(""))
    ensures ListResponse(query, all).payload == ListData(Page(filtered, current, pageSize), |filtered|)
  {
    assert ListResponse(query, all).payload == ListData(Page(filtered, current, pageSize), |filtered|);
  }

  /** For positive page numbers and sizes, the page the answer lists is what `PageContents` describes, in terms of the query. */
  lemma ListResponsePageContents(query: Query, all: seq<Record>, current: int, pageSize: int, filtered: seq<Record>)
    requires current == NumberOr(Param(query, "current"), 1) && pageSize == NumberOr(Param(query, "pageSize"), 10)
    requires filtered == FilterData(all, Param(query, "name").GetOr(""), Param(query, "type").GetOr(""),
      Param(query, "area").GetOr(""))
    requires current >= 1 && pageSize >= 1
    ensures var list, start := ListResponse(query, all).payload.list, (current - 1) * pageSize;
      |list| <= pageSize &&
      (forall k :: 0 <= k < |list| ==> 0 <= start + k < |filtered| && list[k] == filtered[start + k]) &&
      (|list| == pageSize <==> start + pageSize <= |filtered|) &&
      (list == [] <==> |filtered| <= start)
  {
    ListResponsePage(query, all, current, pageSize, filtered);
    PageContents(filtered, current, pageSize);
    assert (current - 1) * pageSize >= 0 by { MulNonNegative(current - 1, pageSize); }
  }

  /** The list handler: generate 100 records, filter them by the query, return one page and the filtered total. */
  method ListHandler(query: Query, random: nat -> Draw) returns (resp: MockResponse)
    ensures exists all: seq<Record> ::
      |all| == 100 &&
      (forall i :: 0 <= i < 100 ==> all[i] == RecordOf(random(i))) &&
      resp == ListResponse(query, all)
  {
    var all := GenerateData(100, random);
    var current := NumberOr(Param(query, "current"), 1);
    var pageSize := NumberOr(Param(query, "pageSize"), 10);
    var name := Param(query, "name").GetOr("");
    var t := Param(query, "type").GetOr("");
    var area := Param(query, "area").GetOr("");
    var filtered := all;
    if name != "" {
      filtered := Filter(filtered, NameTest(name));
    }
    if t != "" {
      filtered := Filter(filtered, TypeTest(t));
    }
    if area != "" {
      filtered := Filter(filtered, AreaTest(area));
    }
    var total := |filtered|;
    var list := JsSlice(filtered, (current - 1) * pageSize, current * pageSize);
    resp := Success(ListData(list, total));
  }

  /**
   * Without a query the handler answers with the first ten generated rows
   * and a total of 100.
   */
  lemma DefaultListResponse(all: seq<Record>)
    requires |all| == 100
    ensures ListResponse(map[], all) == Success(ListData(all[..10], 100))
  {
  }

  /**
   * The delete handler: the body is parsed as JSON and `id` is taken from it,
   * and the answer is a success with no data. `None` for `body` is a body
   * that is not JSON; parsing it, or reading `id` from `null`, throws.
   */
  function DeleteHandler(body: Option<Value>): (r: Result<MockResponse, string>)
    ensures r.Ok? <==> body.Some? && !body.value.Null? && !body.value.Undefined?
    ensures r.Ok? ==> r.value == Success(NoData)
  {
    match body
    case None => Err("SyntaxError")
    case Some(v) =>
      if Member(v, "id").None? then Err("TypeError") else Ok(Success(NoData))
  }
}
