/**
 * The raw-SQL list adapter of `common/sql_route.py`: it wraps hand-written SQL
 * either in a count or in an order/limit/offset envelope, refuses limits
 * outside (0, 15000], runs the statement on a fresh session and closes that
 * session on every way out.
 *
 * The order/limit/offset normaliser it calls and the per-row post-processing
 * are not part of this model: both are parameters.
 */
module SqlRoute {
  import opened Wrappers
  import opened Db
  import Text

  /** One `(direction, fieldname)` pair of the normalised ordering. */
  datatype OrderArg = OrderArg(direction: string, fieldname: string)

  /** What the normaliser returns: the ordering (or None), the limit and the offset. */
  datatype Normalized = Normalized(orderBy: Option<seq<OrderArg>>, limit: Option<int>, offset: Option<int>)

  /**
   * `process_list_query_order_by_limit_offset(skip_order_by, order_by, get_count, limit, offset)`,
   * called with `skip_order_by_id_field=True`.
   */
  type Normalizer = (bool, Option<string>, bool, Option<int>, Option<int>) -> Normalized

  datatype Error =
    | AbuseLimit              // "due to abuse, limit must be between 1 and 15000"
    | DbError(message: string)  // the database refused the statement
    | NoCountRow              // the count query returned no first cell

  /** The count as a plain-text body, or the post-processed rows. */
  datatype Response<T> = PlainText(body: string) | Items(items: seq<T>)

  /** The largest limit a non-count call may ask for. */
  const MaxLimit := 15000

  /** The count envelope. */
  function CountSql(sql: string): (r: string)
    ensures |r| == 22 + |sql| + 10
    ensures r[..22] == "select count(1) from (" && r[|r| - 10..] == ") as count"
    ensures r[22..|r| - 10] == sql
  {
    "select count(1) from (" + sql + ") as count"
  }

  /** `fieldname direction` for each pair, in order. */
  function OrderTerms(args: seq<OrderArg>): (r: seq<string>)
    ensures |r| == |args|
    ensures forall i :: 0 <= i < |args| ==> r[i] == args[i].fieldname + " " + args[i].direction
  {
    seq(|args|, i requires 0 <= i < |args| => args[i].fieldname + " " + args[i].direction)
  }

  /** The ORDER BY clause: empty without an ordering, otherwise the terms joined by commas. */
  function OrderByClause(args: Option<seq<OrderArg>>): (r: string)
    ensures r == "" <==> args.None?
    ensures args.Some? ==> r == " order by " + Text.Join(", ", OrderTerms(args.value))
  {
    if args.None? then "" else " order by " + Text.Join(", ", OrderTerms(args.value))
  }

  /** The LIMIT clause: present exactly when a limit is set, and the number reads back from it. */
  function LimitClause(limit: Option<int>): (r: string)
    ensures r == "" <==> limit.None?
    ensures limit.Some? && limit.value >= 0 ==>
      |r| > 7 && r[..7] == " limit " && Text.IsDigits(r[7..]) && Text.DigitsValue(r[7..]) == limit.value
  {
    if limit.None? then ""
    else
      NumberReadsBack(" limit ", limit.value);
      " limit " + Text.IntToString(limit.value)
  }

  /** The OFFSET clause: present exactly when an offset is set, and the number reads back from it. */
  function OffsetClause(offset: Option<int>): (r: string)
    ensures r == "" <==> offset.None?
    ensures offset.Some? && offset.value >= 0 ==>
      |r| > 8 && r[..8] == " offset " && Text.IsDigits(r[8..]) && Text.DigitsValue(r[8..]) == offset.value
  {
    if offset.None? then ""
    else
      NumberReadsBack(" offset ", offset.value);
      " offset " + Text.IntToString(offset.value)
  }

  /** A non-negative number rendered after a keyword can be read back from the text that follows it. */
  lemma NumberReadsBack(keyword: string, n: int)
    ensures n >= 0 ==> var r := keyword + Text.IntToString(n);
      r[..|keyword|] == keyword && Text.IsDigits(r[|keyword|..]) && Text.DigitsValue(r[|keyword|..]) == n
  {
    if n >= 0 {
      var r := keyword + Text.IntToString(n);
      assert r[|keyword|..] == Text.NatToString(n);
      Text.NatToStringRoundTrip(n);
    }
  }

  /** The SQL is left as it is exactly when every clause is empty; otherwise it becomes a subquery. */
  function Wrap(sql: string, orderBy: string, limit: string, offset: string): (r: string)
    ensures r == sql <==> orderBy == "" && limit == "" && offset == ""
    ensures r != sql ==> r == "select * from (" + sql + ") a " + orderBy + limit + offset
  {
    if orderBy != "" || limit != "" || offset != "" then "select * from (" + sql + ") a " + orderBy + limit + offset
    else sql
  }

  /** The limit check of a non-count call. */
  predicate WithinAbuseBound(limit: Option<int>)
  {
    limit.Some? && 0 < limit.value <= MaxLimit
  }

  /** What the normaliser is asked for in a non-count call: the default fills a falsy limit. */
  function NormalizedFor(normalize: Normalizer, skipOrderBy: bool, orderBy: Option<string>,
                         defaultLimit: Option<int>, limit: Option<int>, offset: Option<int>): Normalized
  {
    normalize(skipOrderBy, orderBy, false, LimitOrDefault(limit, defaultLimit), offset)
  }

  /**
   * The statement `list_` sends, or the abuse error it raises before sending
   * anything.  A count ignores limit, offset and ordering; a non-count call goes
   * through only with a limit in (0, 15000], and then the SQL is always wrapped.
   */
  function Plan(sql: string, defaultLimit: Option<int>, limit: Option<int>, offset: Option<int>,
                getCount: bool, orderBy: Option<string>, skipOrderBy: bool, normalize: Normalizer): (r: Result<string, Error>)
    ensures getCount ==> r == Ok("select count(1) from (" + sql + ") as count")
    ensures !getCount ==>
      (r.Ok? <==> WithinAbuseBound(NormalizedFor(normalize, skipOrderBy, orderBy, defaultLimit, limit, offset).limit))
    ensures r.Err? ==> r.error == AbuseLimit
    ensures !getCount && r.Ok? ==>
      var n := NormalizedFor(normalize, skipOrderBy, orderBy, defaultLimit, limit, offset);
      r.value != sql && "select * from (" + sql + ") a " <= r.value &&
      Text.EndsWith(r.value, LimitClause(n.limit) + OffsetClause(n.offset))
  {
    if getCount then Ok(CountSql(sql))
    else
      var n := NormalizedFor(normalize, skipOrderBy, orderBy, defaultLimit, limit, offset);
      if !WithinAbuseBound(n.limit) then Err(AbuseLimit)
      else
        var o, l, f := OrderByClause(n.orderBy), LimitClause(n.limit), OffsetClause(n.offset);
        var w := Wrap(sql, o, l, f);
        assert w == "select * from (" + sql + ") a " + o + (l + f);
        Ok(w)
  }

  /** A non-count plan, spelled out clause by clause. */
  lemma PlanOfList(sql: string, defaultLimit: Option<int>, limit: Option<int>, offset: Option<int>,
                   orderBy: Option<string>, skipOrderBy: bool, normalize: Normalizer, n: Normalized)
    requires n == NormalizedFor(normalize, skipOrderBy, orderBy, defaultLimit, limit, offset)
    ensures Plan(sql, defaultLimit, limit, offset, false, orderBy, skipOrderBy, normalize)
         == if WithinAbuseBound(n.limit)
            then Ok(Wrap(sql, OrderByClause(n.orderBy), LimitClause(n.limit), OffsetClause(n.offset)))
            else Err(AbuseLimit)
  {
  }

  /** A count is the same statement whatever limit, offset, default or ordering came with it. */
  lemma CountIgnoresPaging(sql: string, defaultLimit: Option<int>, limit: Option<int>, offset: Option<int>,
                           orderBy: Option<string>, skipOrderBy: bool, normalize: Normalizer, normalize': Normalizer)
    ensures Plan(sql, defaultLimit, limit, offset, true, orderBy, skipOrderBy, normalize)
         == Plan(sql, None, None, None, true, None, true, normalize')
  {
  }

  /** How the database's answer becomes the response. */
  function Deliver<T>(getCount: bool, answer: Result<seq<Record>, string>, postProcess: Record -> T): (r: Result<Response<T>, Error>)
    ensures answer.Err? ==> r == Err(DbError(answer.error))
    ensures answer.Ok? && getCount ==>
      (r.Ok? <==> |answer.value| > 0 && |answer.value[0]| > 0) &&
      (r.Ok? ==> r.value == PlainText(PyStr(answer.value[0][0])))
    ensures answer.Ok? && !getCount ==>
      r.Ok? && r.value.Items? && |r.value.items| == |answer.value| &&
      (forall i :: 0 <= i < |answer.value| ==> r.value.items[i] == postProcess(answer.value[i]))
  {
    match answer
    case Err(e) => Err(DbError(e))
    case Ok(rows) =>
      if getCount then
        if |rows| == 0 || |rows[0]| == 0 then Err(NoCountRow) else Ok(PlainText(PyStr(rows[0][0])))
      else Ok(Items(seq(|rows|, i requires 0 <= i < |rows| => postProcess(rows[i]))))
  }

  /**
   * `list_`: opens a session, sends the planned statement (nothing when the
   * limit check fails), turns the answer into the response and closes the
   * session on every path.
   */
  method List<T>(maker: SessionMaker, sql: string, params: Params, defaultLimit: Option<int>,
                 limit: Option<int>, offset: Option<int>, getCount: bool, orderBy: Option<string>,
                 skipOrderBy: bool, normalize: Normalizer, postProcess: Record -> T)
    returns (r: Result<Response<T>, Error>)
    requires maker.AllClosed()
    modifies maker
    ensures maker.AllClosed()
    ensures |maker.sessions| == |old(maker.sessions)| + 1
    ensures maker.sessions[..|old(maker.sessions)|] == old(maker.sessions)
    ensures var s := maker.sessions[|maker.sessions| - 1];
            var p := Plan(sql, defaultLimit, limit, offset, getCount, orderBy, skipOrderBy, normalize);
            (p.Err? ==> s.executed == [] && r == Err(p.error)) &&
            (p.Ok? ==> s.executed == [Statement(p.value, params)] &&
                       r == Deliver(getCount, maker.db(p.value, params), postProcess))
  {
    ghost var before := maker.sessions;
    var session := maker.Make();
    assert maker.sessions[|maker.sessions| - 1] == session && maker.sessions[..|before|] == before;
    if getCount {
      r := ListCount(session, sql, params, postProcess);
    } else {
      r := ListRows(session, sql, params, defaultLimit, limit, offset, orderBy, skipOrderBy, normalize, postProcess);
    }
  }

  /** The count branch of `list_`, on an open session it closes. */
  method ListCount<T>(session: Session, sql: string, params: Params, postProcess: Record -> T)
    returns (r: Result<Response<T>, Error>)
    requires session.open && session.executed == []
    modifies session
    ensures !session.open && session.executed == [Statement(CountSql(sql), params)]
    ensures r == Deliver(true, session.db(CountSql(sql), params), postProcess)
  {
    var countSql := "select count(1) from (" + sql + ") as count";
    var res := session.Execute(countSql, params);
    if res.Err? {
      session.Close();
      return Err(DbError(res.error));
    }
    if |res.value| == 0 || |res.value[0]| == 0 {
      session.Close();
      return Err(NoCountRow);
    }
    var cnt := res.value[0][0];
    session.Close();
    return Ok(PlainText(PyStr(cnt)));
  }

  /** The non-count branch of `list_`, on an open session it closes. */
  method ListRows<T>(session: Session, sql: string, params: Params, defaultLimit: Option<int>,
                     limit: Option<int>, offset: Option<int>, orderBy: Option<string>,
                     skipOrderBy: bool, normalize: Normalizer, postProcess: Record -> T)
    returns (r: Result<Response<T>, Error>)
    requires session.open && session.executed == []
    modifies session
    ensures !session.open
    ensures var p := Plan(sql, defaultLimit, limit, offset, false, orderBy, skipOrderBy, normalize);
            (p.Err? ==> session.executed == [] && r == Err(p.error)) &&
            (p.Ok? ==> session.executed == [Statement(p.value, params)] &&
                       r == Deliver(false, session.db(p.value, params), postProcess))
  {
    var lim := limit;
    if !Truthy(lim) && Truthy(defaultLimit) {
      lim := defaultLimit;
    }
    var n := normalize(skipOrderBy, orderBy, false, lim, offset);
    assert lim == LimitOrDefault(limit, defaultLimit);
    PlanOfList(sql, defaultLimit, limit, offset, orderBy, skipOrderBy, normalize, n);
    var sqlOrderBy, sqlLimit, sqlOffset := "", "", "";
    if n.orderBy.Some? {
      sqlOrderBy := " order by " + Text.Join(", ", OrderTerms(n.orderBy.value));
    }
    if n.limit.Some? {
      sqlLimit := " limit " + Text.IntToString(n.limit.value);
    }
    if !(sqlLimit != "" && 0 < n.limit.value <= MaxLimit) {
      session.Close();
      return Err(AbuseLimit);
    }
    if n.offset.Some? {
      sqlOffset := " offset " + Text.IntToString(n.offset.value);
    }
    assert sqlOrderBy == OrderByClause(n.orderBy) && sqlLimit == LimitClause(n.limit) && sqlOffset == OffsetClause(n.offset);
    var stmt := sql;
    if sqlOrderBy != "" || sqlLimit != "" || sqlOffset != "" {
      stmt := "select * from (" + sql + ") a " + sqlOrderBy + sqlLimit + sqlOffset;
    }
    assert stmt == Wrap(sql, sqlOrderBy, sqlLimit, sqlOffset);
    var res := session.Execute(stmt, params);
    if res.Err? {
      session.Close();
      return Err(DbError(res.error));
    }
    var rows := res.value;
    var data := seq(|rows|, i requires 0 <= i < |rows| => postProcess(rows[i]));
    session.Close();
    return Ok(Items(data));
  }
}
