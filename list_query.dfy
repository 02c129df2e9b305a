/**
 * The generic filtered list/get engine of `routers/common.py`.
 *
 * A query is an immutable value: the conjunction of the clauses added so far
 * plus an optional LIMIT and OFFSET.  Rows are objects by attribute name; the
 * database returns, in table order, the rows every clause holds of, skips
 * OFFSET of them and keeps at most LIMIT.
 */
module ListQuery {
  import opened Wrappers
  import opened Db
  import Text

  /** The five handlers `get_list_query` can dispatch to. */
  datatype FilterKind = Equals | DatetimeFrom | DatetimeTo | Prefix | DateInRange

  /** The `type` name that selects each handler (`get_list_query_filter_<name>`). */
  function KindName(k: FilterKind): string
  {
    match k
    case Equals => "equals"
    case DatetimeFrom => "datetime_from"
    case DatetimeTo => "datetime_to"
    case Prefix => "prefix"
    case DateInRange => "date_in_range"
  }

  /** The name lookup `get_list_query` performs: a known name selects its handler, any other fails. */
  function KindOf(name: string): (r: Option<FilterKind>)
    ensures r.Some? ==> KindName(r.value) == name
    ensures forall k :: KindName(k) == name ==> r == Some(k)
  {
    if name == "equals" then Some(Equals)
    else if name == "datetime_from" then Some(DatetimeFrom)
    else if name == "datetime_to" then Some(DatetimeTo)
    else if name == "prefix" then Some(Prefix)
    else if name == "date_in_range" then Some(DateInRange)
    else None
  }

  /**
   * A filter descriptor `{'type': kind, 'field': field, 'fields': (min, max), 'value': value}`;
   * `Null` stands for Python's `None`.
   */
  datatype Descriptor = Descriptor(kind: string, field: string, fields: seq<string>, value: Value)

  datatype Error =
    | UnknownFilterType(name: string)  // the handler lookup by name fails
    | MalformedFieldPair               // `min_field, max_field = filter['fields']` does not unpack
    | NegativeBound                    // the database refuses a negative LIMIT or OFFSET
    | NoResultFound                    // `.one()` found no row
    | MultipleResultsFound             // `.one()` found several rows

  /** The HTTP status the application answers an error with: only NoResultFound is a 404. */
  function Status(e: Error): int
  {
    if e == NoResultFound then 404 else 500
  }

  // ---------------------------------------------------------------- rows and clauses

  /** An attribute of a row; an absent one reads as NULL. */
  function Get(row: Row, f: string): Value
  {
    if f in row then row[f] else Null
  }

  /** Code-point order on text. */
  predicate StrLe(x: string, y: string)
  {
    x == [] || (y != [] && (x[0] < y[0] || (x[0] == y[0] && StrLe(x[1..], y[1..]))))
  }

  predicate DateLe(x: Date, y: Date)
  {
    x.year < y.year || (x.year == y.year && (x.month < y.month || (x.month == y.month && x.day <= y.day)))
  }

  /** SQL `a <= b` where it is true: NULL, and values of different kinds, never compare. */
  predicate SqlLe(a: Value, b: Value)
  {
    match (a, b)
    case (Int(x), Int(y)) => x <= y
    case (Str(x), Str(y)) => StrLe(x, y)
    case (Day(x), Day(y)) => DateLe(x, y)
    case _ => false
  }

  /**
   * SQL `s LIKE p`: `%` matches any run of characters, `_` exactly one, and a
   * backslash makes the next pattern character literal.
   */
  predicate Like(s: string, p: string)
    decreases |p|, |s|
  {
    if p == [] then s == []
    else if p[0] == '%' then Like(s, p[1..]) || (s != [] && Like(s[1..], p))
    else if p[0] == '_' then s != [] && Like(s[1..], p[1..])
    else if p[0] == '\\' && |p| >= 2 then s != [] && s[0] == p[1] && Like(s[1..], p[2..])
    else s != [] && s[0] == p[0] && Like(s[1..], p[1..])
  }

  /** One `WHERE` condition a handler adds. */
  datatype Clause =
    | FieldEq(field: string, v: Value)       // field == value (`IS NULL` for None)
    | FieldGe(field: string, v: Value)       // field >= value
    | FieldLe(field: string, v: Value)       // field <= value
    | FieldLike(field: string, pattern: string)  // field LIKE pattern
    | ValueGe(v: Value, field: string)       // value >= field
    | ValueLe(v: Value, field: string)       // value <= field

  predicate Holds(c: Clause, row: Row)
  {
    match c
    case FieldEq(f, v) => Get(row, f) == v
    case FieldGe(f, v) => SqlLe(v, Get(row, f))
    case FieldLe(f, v) => SqlLe(Get(row, f), v)
    case FieldLike(f, p) => Get(row, f).Str? && Like(Get(row, f).s, p)
    case ValueGe(v, f) => SqlLe(Get(row, f), v)
    case ValueLe(v, f) => SqlLe(v, Get(row, f))
  }

  /** A query value: conjunctive clauses, then LIMIT and OFFSET when set. */
  datatype Query = Query(clauses: seq<Clause>, limit: Option<int>, offset: Option<int>)

  /** `session.query(db_model)`: every row, no bounds. */
  const Everything: Query := Query([], None, None)

  /** Every clause holds of the row. */
  predicate AllHold(cs: seq<Clause>, row: Row)
  {
    forall i :: 0 <= i < |cs| ==> Holds(cs[i], row)
  }

  /** The row belongs to the result of `q` before LIMIT and OFFSET. */
  predicate Selects(q: Query, row: Row)
  {
    AllHold(q.clauses, row)
  }

  /** `session_query.filter(c)`. */
  function AndWhere(q: Query, c: Clause): (r: Query)
    ensures r.limit == q.limit && r.offset == q.offset
    ensures forall row :: Selects(r, row) <==> Selects(q, row) && Holds(c, row)
  {
    var r := q.(clauses := q.clauses + [c]);
    assert forall row :: AllHold(r.clauses, row) <==> AllHold(q.clauses, row) && Holds(c, row) by {
      forall row
        ensures AllHold(r.clauses, row) <==> AllHold(q.clauses, row) && Holds(c, row)
      {
        assert r.clauses[|q.clauses|] == c;
        assert forall i :: 0 <= i < |q.clauses| ==> r.clauses[i] == q.clauses[i];
      }
    }
    r
  }

  // ---------------------------------------------------------------- the five handlers

  /** `get_list_query_filter_equals`: keeps the rows whose field equals the value. */
  function FilterEquals(q: Query, d: Descriptor): (r: Query)
    ensures r.limit == q.limit && r.offset == q.offset
    ensures d.value == Null ==> r == q
    ensures forall row :: Selects(r, row) <==> Selects(q, row) && (d.value != Null ==> Get(row, d.field) == d.value)
  {
    if d.value != Null then AndWhere(q, FieldEq(d.field, d.value)) else q
  }

  /** `get_list_query_filter_datetime_from`: keeps the rows whose field is at or after the value. */
  function FilterDatetimeFrom(q: Query, d: Descriptor): (r: Query)
    ensures r.limit == q.limit && r.offset == q.offset
    ensures d.value == Null ==> r == q
    ensures forall row :: Selects(r, row) <==> Selects(q, row) && (d.value != Null ==> SqlLe(d.value, Get(row, d.field)))
  {
    if d.value != Null then AndWhere(q, FieldGe(d.field, d.value)) else q
  }

  /** `get_list_query_filter_datetime_to`: keeps the rows whose field is at or before the value. */
  function FilterDatetimeTo(q: Query, d: Descriptor): (r: Query)
    ensures r.limit == q.limit && r.offset == q.offset
    ensures d.value == Null ==> r == q
    ensures forall row :: Selects(r, row) <==> Selects(q, row) && (d.value != Null ==> SqlLe(Get(row, d.field), d.value))
  {
    if d.value != Null then AndWhere(q, FieldLe(d.field, d.value)) else q
  }

  /** `get_list_query_filter_prefix`: keeps the rows whose field is LIKE the unescaped value followed by `%`. */
  function FilterPrefix(q: Query, d: Descriptor): (r: Query)
    ensures r.limit == q.limit && r.offset == q.offset
    ensures d.value == Null ==> r == q
    ensures forall row :: Selects(r, row) <==>
      Selects(q, row) && (d.value != Null ==> Get(row, d.field).Str? && Like(Get(row, d.field).s, PyStr(d.value) + "%"))
  {
    if d.value != Null then AndWhere(q, FieldLike(d.field, PyStr(d.value) + "%")) else q
  }

  /**
   * `get_list_query_filter_date_in_range`: keeps the rows whose pair of fields
   * encloses the value, both ends inclusive; the pair is unpacked only when a
   * value is given, and must have exactly two fields.
   */
  function FilterDateInRange(q: Query, d: Descriptor): (r: Result<Query, Error>)
    ensures r.Err? <==> d.value != Null && |d.fields| != 2
    ensures r.Err? ==> r.error == MalformedFieldPair
    ensures d.value == Null ==> r == Ok(q)
    ensures r.Ok? ==> r.value.limit == q.limit && r.value.offset == q.offset
    ensures r.Ok? ==> forall row :: Selects(r.value, row) <==>
      Selects(q, row) && (d.value != Null ==> SqlLe(Get(row, d.fields[0]), d.value) && SqlLe(d.value, Get(row, d.fields[1])))
  {
    if d.value == Null then Ok(q)
    else if |d.fields| != 2 then Err(MalformedFieldPair)
    else Ok(AndWhere(AndWhere(q, ValueGe(d.value, d.fields[0])), ValueLe(d.value, d.fields[1])))
  }

  // ---------------------------------------------------------------- descriptors, independently of queries

  /** Whether applying the descriptor raises: an unknown type, or a range value without a field pair. */
  predicate Fails(d: Descriptor)
  {
    KindOf(d.kind).None? || (d.kind == "date_in_range" && d.value != Null && |d.fields| != 2)
  }

  function FailureOf(d: Descriptor): Error
  {
    if KindOf(d.kind).None? then UnknownFilterType(d.kind) else MalformedFieldPair
  }

  /** What a well-formed descriptor demands of a row: nothing when its value is None. */
  predicate Meets(d: Descriptor, row: Row)
    requires !Fails(d)
  {
    d.value == Null ||
    match KindOf(d.kind).value
    case Equals => Get(row, d.field) == d.value
    case DatetimeFrom => SqlLe(d.value, Get(row, d.field))
    case DatetimeTo => SqlLe(Get(row, d.field), d.value)
    case Prefix => Get(row, d.field).Str? && Like(Get(row, d.field).s, PyStr(d.value) + "%")
    case DateInRange => SqlLe(Get(row, d.fields[0]), d.value) && SqlLe(d.value, Get(row, d.fields[1]))
  }

  /** Every descriptor is well formed and demands nothing the row lacks. */
  predicate MeetsAll(ds: seq<Descriptor>, row: Row)
  {
    forall j :: 0 <= j < |ds| ==> !Fails(ds[j]) && Meets(ds[j], row)
  }

  /** The error of the first descriptor in the list that raises, if any. */
  function FirstFailure(ds: seq<Descriptor>): Option<Error>
  {
    if ds == [] then None
    else if Fails(ds[0]) then Some(FailureOf(ds[0]))
    else FirstFailure(ds[1..])
  }

  /** The list raises exactly when one of its descriptors does. */
  lemma {:induction false} FirstFailureFindsFailing(ds: seq<Descriptor>)
    ensures FirstFailure(ds).None? <==> forall j :: 0 <= j < |ds| ==> !Fails(ds[j])
  {
    if ds != [] && !Fails(ds[0]) {
      FirstFailureFindsFailing(ds[1..]);
      assert forall j :: 1 <= j < |ds| ==> ds[j] == ds[1..][j - 1];
    }
  }

  /** One step of the loop of `get_list_query`: dispatch by name, then apply the handler. */
  function ApplyDescriptor(q: Query, d: Descriptor): (r: Result<Query, Error>)
    ensures r.Err? <==> Fails(d)
    ensures r.Err? ==> r.error == FailureOf(d)
    ensures r.Ok? ==> r.value.limit == q.limit && r.value.offset == q.offset
    ensures r.Ok? ==> forall row :: Selects(r.value, row) <==> Selects(q, row) && Meets(d, row)
  {
    match KindOf(d.kind)
    case None => Err(UnknownFilterType(d.kind))
    case Some(Equals) => Ok(FilterEquals(q, d))
    case Some(DatetimeFrom) => Ok(FilterDatetimeFrom(q, d))
    case Some(DatetimeTo) => Ok(FilterDatetimeTo(q, d))
    case Some(Prefix) => Ok(FilterPrefix(q, d))
    case Some(DateInRange) => FilterDateInRange(q, d)
  }

  // ---------------------------------------------------------------- limit and offset

  /**
   * `get_list_query`: threads the query through the descriptors in order,
   * then sets the limit (if truthy) and the offset (if truthy).
   */
  method GetListQuery(limit: Option<int>, offset: Option<int>, filters: seq<Descriptor>, maxLimit: Option<int>)
    returns (r: Result<Query, Error>)
    ensures r.Err? <==> FirstFailure(filters).Some?
    ensures r.Err? ==> r.error == FirstFailure(filters).value
    ensures r.Ok? ==> forall row :: Selects(r.value, row) <==> MeetsAll(filters, row)
    ensures r.Ok? ==> r.value.limit == (if Truthy(LimitOrDefault(limit, maxLimit)) then LimitOrDefault(limit, maxLimit) else None)
    ensures r.Ok? ==> r.value.offset == (if Truthy(offset) then offset else None)
  {
    var q := Everything;
    var i := 0;
    while i < |filters|
      invariant 0 <= i <= |filters|
      invariant FirstFailure(filters) == FirstFailure(filters[i..])
      invariant q.limit == None && q.offset == None
      invariant forall row :: Selects(q, row) <==> MeetsAll(filters[..i], row)
    {
      assert filters[i..][1..] == filters[i + 1..];
      var next := ApplyDescriptor(q, filters[i]);
      if next.Err? {
        return Err(next.error);
      }
      MeetsAllStep(q, next.value, filters[..i], filters[i]);
      assert filters[..i + 1] == filters[..i] + [filters[i]];
      q := next.value;
      i := i + 1;
    }
    assert filters[..i] == filters;
    var lim := limit;
    if !Truthy(lim) && Truthy(maxLimit) {
      lim := maxLimit;
    }
    if Truthy(lim) {
      q := q.(limit := lim);
    }
    if Truthy(offset) {
      q := q.(offset := offset);
    }
    return Ok(q);
  }

  /** Adding a well-formed descriptor's condition to a query for a list selects for the longer list. */
  lemma MeetsAllStep(q: Query, next: Query, ds: seq<Descriptor>, d: Descriptor)
    requires !Fails(d)
    requires forall row :: Selects(q, row) <==> MeetsAll(ds, row)
    requires forall row :: Selects(next, row) <==> Selects(q, row) && Meets(d, row)
    ensures forall row :: Selects(next, row) <==> MeetsAll(ds + [d], row)
  {
    forall row
      ensures MeetsAll(ds + [d], row) <==> MeetsAll(ds, row) && Meets(d, row)
    {
      assert (ds + [d])[|ds|] == d;
      assert forall j :: 0 <= j < |ds| ==> (ds + [d])[j] == ds[j];
    }
  }

  // ---------------------------------------------------------------- running a query

  /** The rows of the table every clause of `q` holds of, in table order. */
  function Matching(q: Query, rows: seq<Row>): (r: seq<Row>)
    ensures |r| <= |rows|
    ensures forall x :: x in r <==> x in rows && Selects(q, x)
  {
    if rows == [] then []
    else (if Selects(q, rows[0]) then [rows[0]] else []) + Matching(q, rows[1..])
  }

  /** Filtering commutes with splitting the table: the order of the table is kept. */
  lemma {:induction false} MatchingAppend(q: Query, a: seq<Row>, b: seq<Row>)
    ensures Matching(q, a + b) == Matching(q, a) + Matching(q, b)
  {
    if a != [] {
      assert (a + b)[0] == a[0];
      assert (a + b)[1..] == a[1..] + b;
      MatchingAppend(q, a[1..], b);
    } else {
      assert a + b == b;
    }
  }

  function Min(a: int, b: int): int
  {
    if a <= b then a else b
  }

  /** How many matching rows OFFSET skips. */
  function Skipped(q: Query, m: nat): nat
  {
    if q.offset.Some? && q.offset.value > 0 then Min(q.offset.value, m) else 0
  }

  /** At most `limit` rows of `m` (all when None), starting at index `k`. */
  function Window(m: seq<Row>, k: nat, limit: Option<int>): (r: seq<Row>)
    requires k <= |m| && (limit.Some? ==> limit.value >= 0)
    ensures |r| == (if limit.Some? then Min(limit.value, |m| - k) else |m| - k)
    ensures forall i :: 0 <= i < |r| ==> r[i] == m[k + i]
  {
    var rest := m[k..];
    if limit.Some? && limit.value < |rest| then rest[..limit.value] else rest
  }

  /**
   * What the database returns for `q` over the table `rows`: a negative bound
   * is refused; otherwise the matching rows after skipping OFFSET, at most LIMIT of them.
   */
  function Execute(q: Query, rows: seq<Row>): (r: Result<seq<Row>, Error>)
    ensures r.Err? <==> (q.limit.Some? && q.limit.value < 0) || (q.offset.Some? && q.offset.value < 0)
    ensures r.Err? ==> r.error == NegativeBound
    ensures r.Ok? ==> forall x :: x in r.value ==> x in rows && Selects(q, x)
    ensures r.Ok? && q.limit.Some? ==> |r.value| <= q.limit.value
    ensures r.Ok? ==> r.value == Window(Matching(q, rows), Skipped(q, |Matching(q, rows)|), q.limit)
  {
    if (q.limit.Some? && q.limit.value < 0) || (q.offset.Some? && q.offset.value < 0) then Err(NegativeBound)
    else
      var m := Matching(q, rows);
      var w := Window(m, Skipped(q, |m|), q.limit);
      assert forall x :: x in w ==> x in m by {
        forall x | x in w ensures x in m {
          var i :| 0 <= i < |w| && w[i] == x;
          assert m[Skipped(q, |m|) + i] == x;
        }
      }
      Ok(w)
  }

  /**
   * Over the model's table, whose row order every query shares, two
   * consecutive pages of `size` rows, the second starting where the first
   * ends, together are the page of twice the size.
   */
  lemma PagesConcatenate(q: Query, rows: seq<Row>, size: nat, start: nat)
    requires size > 0
    ensures var first := Execute(q.(limit := Some(size), offset := Some(start)), rows);
            var second := Execute(q.(limit := Some(size), offset := Some(start + size)), rows);
            var both := Execute(q.(limit := Some(2 * size), offset := Some(start)), rows);
            first.Ok? && second.Ok? && both.Ok? && both.value == first.value + second.value
  {
    var q1 := q.(limit := Some(size), offset := Some(start));
    var q2 := q.(limit := Some(size), offset := Some(start + size));
    var q3 := q.(limit := Some(2 * size), offset := Some(start));
    SameClausesSameMatches(q, q1, rows);
    SameClausesSameMatches(q, q2, rows);
    SameClausesSameMatches(q, q3, rows);
    var m := Matching(q, rows);
    var k := Min(start, |m|);
    assert Skipped(q1, |m|) == k && Skipped(q3, |m|) == k;
    assert Skipped(q2, |m|) == Min(k + size, |m|);
    WindowsConcatenate(m, k, size);
  }

  /** A window of `2 * size` rows is the window of `size` rows followed by the next one. */
  lemma WindowsConcatenate(m: seq<Row>, k: nat, size: nat)
    requires k <= |m|
    ensures Window(m, k, Some(2 * size)) == Window(m, k, Some(size)) + Window(m, Min(k + size, |m|), Some(size))
  {
    var j := Min(k + size, |m|);
    var l := Min(k + 2 * size, |m|);
    WindowIsSlice(m, k, size);
    WindowIsSlice(m, j, size);
    WindowIsSlice(m, k, 2 * size);
    assert Min(j + size, |m|) == l;
    assert m[k..l] == m[k..j] + m[j..l];
  }

  /** A window is the slice from its start, cut at the end of the rows. */
  lemma WindowIsSlice(m: seq<Row>, k: nat, n: nat)
    requires k <= |m|
    ensures Window(m, k, Some(n)) == m[k..Min(k + n, |m|)]
  {
  }

  /** Only the clauses decide which rows match. */
  lemma {:induction false} SameClausesSameMatches(q: Query, q': Query, rows: seq<Row>)
    requires q.clauses == q'.clauses
    ensures Matching(q, rows) == Matching(q', rows)
  {
    if rows != [] {
      assert Selects(q, rows[0]) == Selects(q', rows[0]);
      SameClausesSameMatches(q, q', rows[1..]);
    }
  }

  /** The default of `max_limit`: what bounds a list requested without a limit. */
  const DefaultMaxLimit := 1000

  /** The rows of the table meeting every descriptor, in table order. */
  function Meeting(ds: seq<Descriptor>, rows: seq<Row>): (r: seq<Row>)
    ensures |r| <= |rows|
    ensures forall x :: x in r <==> x in rows && MeetsAll(ds, x)
  {
    if rows == [] then []
    else (if MeetsAll(ds, rows[0]) then [rows[0]] else []) + Meeting(ds, rows[1..])
  }

  /** A query selecting exactly the rows meeting the descriptors matches the rows `Meeting` keeps. */
  lemma {:induction false} MatchingIsMeeting(q: Query, ds: seq<Descriptor>, rows: seq<Row>)
    requires forall row :: Selects(q, row) <==> MeetsAll(ds, row)
    ensures Matching(q, rows) == Meeting(ds, rows)
  {
    if rows != [] {
      MatchingIsMeeting(q, ds, rows[1..]);
    }
  }

  /** A bound the database refuses. */
  predicate Negative(bound: Option<int>)
  {
    bound.Some? && bound.value < 0
  }

  /**
   * The page `get_list` answers, stated without the query: a failing
   * descriptor or a negative bound is an error; otherwise the rows meeting
   * every descriptor, in table order, after skipping a truthy offset and cut
   * at the truthy limit (the default filling a falsy one).
   */
  function ListPage(rows: seq<Row>, limit: Option<int>, offset: Option<int>, filters: seq<Descriptor>,
                    maxLimit: Option<int>): (r: Result<seq<Row>, Error>)
    ensures r.Err? <==> FirstFailure(filters).Some? || Negative(LimitOrDefault(limit, maxLimit)) || Negative(offset)
    ensures r.Err? && FirstFailure(filters).Some? ==> r.error == FirstFailure(filters).value
    ensures r.Err? && FirstFailure(filters).None? ==> r.error == NegativeBound
    ensures r.Ok? ==> forall x :: x in r.value ==> x in rows && MeetsAll(filters, x)
    ensures r.Ok? && Truthy(LimitOrDefault(limit, maxLimit)) ==> |r.value| <= LimitOrDefault(limit, maxLimit).value
  {
    var lim := LimitOrDefault(limit, maxLimit);
    if FirstFailure(filters).Some? then Err(FirstFailure(filters).value)
    else if Negative(lim) || Negative(offset) then Err(NegativeBound)
    else
      var f := Meeting(filters, rows);
      var w := Window(f, if Truthy(offset) then Min(offset.value, |f|) else 0, if Truthy(lim) then lim else None);
      assert forall x :: x in w ==> x in f by {
        forall x | x in w ensures x in f {
          var k :| 0 <= k < |w| && w[k] == x;
        }
      }
      Ok(w)
  }

  /** Without a limit and with the default `max_limit`, a list never has more than 1000 rows. */
  lemma DefaultMaxLimitBoundsList(rows: seq<Row>, limit: Option<int>, offset: Option<int>, filters: seq<Descriptor>)
    requires !Truthy(limit)
    ensures var r := ListPage(rows, limit, offset, filters, Some(DefaultMaxLimit));
            r.Ok? ==> |r.value| <= DefaultMaxLimit
  {
    assert LimitOrDefault(limit, Some(DefaultMaxLimit)) == Some(DefaultMaxLimit);
  }

  /**
   * `get_list`: builds the query and returns the attribute mapping of every
   * result object, one per row and in order.
   */
  method GetList(rows: seq<Row>, limit: Option<int>, offset: Option<int>, filters: seq<Descriptor>, maxLimit: Option<int>)
    returns (r: Result<seq<Row>, Error>)
    ensures r == ListPage(rows, limit, offset, filters, maxLimit)
  {
    var q := GetListQuery(limit, offset, filters, maxLimit);
    if q.Err? {
      return Err(q.error);
    }
    var res := Execute(q.value, rows);
    if res.Err? {
      return Err(res.error);
    }
    MatchingIsMeeting(q.value, filters, rows);
    return Ok(res.value);
  }

  // ---------------------------------------------------------------- single item

  /**
   * `get_item`: the one row whose field equals the value (`IS NULL` for None);
   * no match is NoResultFound, answered with 404; several matches is an error too.
   */
  function GetItem(rows: seq<Row>, field: string, value: Value): (r: Result<Row, Error>)
    ensures var m := Matching(Query([FieldEq(field, value)], None, None), rows);
            (r.Ok? <==> |m| == 1) && (r.Ok? ==> r.value == m[0])
    ensures r.Ok? ==> r.value in rows && Get(r.value, field) == value
    ensures r.Err? && Status(r.error) == 404 <==> forall x :: x in rows ==> Get(x, field) != value
  {
    var q := Query([FieldEq(field, value)], None, None);
    var m := Matching(q, rows);
    assert forall x :: Selects(q, x) <==> Get(x, field) == value by {
      forall x ensures Selects(q, x) <==> Get(x, field) == value {
        assert q.clauses[0] == FieldEq(field, value);
      }
    }
    if |m| == 0 then Err(NoResultFound)
    else if |m| == 1 then Ok(m[0])
    else
      assert m[0] in m;
      Err(MultipleResultsFound)
  }

  // ---------------------------------------------------------------- the prefix pattern

  /** A pattern of a single `%` matches any text. */
  lemma {:induction false} PercentMatchesAll(s: string)
    ensures Like(s, "%")
  {
    if s != [] {
      PercentMatchesAll(s[1..]);
    }
  }

  predicate NoWildcards(v: string)
  {
    forall i :: 0 <= i < |v| ==> v[i] != '%' && v[i] != '_' && v[i] != '\\'
  }

  /**
   * For a value free of `%`, `_` and backslash, the prefix filter keeps exactly
   * the texts that start with the value.
   */
  lemma {:induction false} PrefixPatternIsStartsWith(s: string, v: string)
    requires NoWildcards(v)
    ensures Like(s, v + "%") <==> v <= s
  {
    if v == [] {
      assert v + "%" == "%";
      PercentMatchesAll(s);
    } else {
      assert (v + "%")[0] == v[0];
      assert (v + "%")[1..] == v[1..] + "%";
      if s != [] {
        PrefixPatternIsStartsWith(s[1..], v[1..]);
        assert v <= s <==> v[0] == s[0] && v[1..] <= s[1..];
      }
    }
  }

  /** The value is not escaped: prefix `1_` also keeps `12`, which does not start with it. */
  lemma PrefixWildcardIsNotEscaped()
    ensures Like("12", "1_" + "%") && !("1_" <= "12")
  {
    assert "1_" + "%" == "1_%";
    assert "12"[1..] == "2";
    assert "1_"[1] != "12"[1];
    PercentMatchesAll("");
  }
}
