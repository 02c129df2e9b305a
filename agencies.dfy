/**
 * The GTFS agencies list of `routers/gtfs_agencies.py`: the limit defaults
 * to 100 and a limit above 100 is refused, the offset defaults to 0, the
 * optional date bounds become a WHERE clause, and every result row becomes
 * one agency record, in row order.
 */
module Agencies {
  import opened Wrappers
  import opened Db
  import Text

  /** `LIST_MAX_LIMIT`: the default and the largest accepted limit. */
  const ListMaxLimit := 100

  /** One agency record `(date, operator_ref, agency_name)`. */
  datatype Agency = Agency(date: Date, operatorRef: int, agencyName: string)

  datatype Error =
    | LimitTooLarge           // "max allowed limit is 100"
    | DbError(message: string)  // the database refused the statement
    | RowTooShort             // `row[2]` on a row of fewer than three columns
    | InvalidRecord           // a column of the wrong kind for the record

  /** The limit sent: a falsy limit becomes 100. */
  function EffectiveLimit(limit: Option<int>): (r: int)
    ensures Truthy(limit) ==> r == limit.value
    ensures !Truthy(limit) ==> r == ListMaxLimit
  {
    if Truthy(limit) then limit.value else ListMaxLimit
  }

  /** The offset sent: a falsy offset becomes 0. */
  function EffectiveOffset(offset: Option<int>): (r: int)
    ensures Truthy(offset) ==> r == offset.value
    ensures !Truthy(offset) ==> r == 0
  {
    if Truthy(offset) then offset.value else 0
  }

  /** The bound parameters of the statement. */
  function PagingParams(limit: int, offset: int): Params
  {
    map["limit" := Int(limit), "offset" := Int(offset)]
  }

  /** `date >= 'YYYY-MM-DD'`. */
  function FromCondition(d: Date): string
    requires ValidDate(d)
  {
    "date >= '" + IsoDate(d) + "'"
  }

  /** `date <= 'YYYY-MM-DD'`. */
  function ToCondition(d: Date): string
    requires ValidDate(d)
  {
    "date <= '" + IsoDate(d) + "'"
  }

  /** The conditions, the lower bound first, each only when its date is given. */
  function Conditions(dateFrom: Option<Date>, dateTo: Option<Date>): (r: seq<string>)
    requires dateFrom.Some? ==> ValidDate(dateFrom.value)
    requires dateTo.Some? ==> ValidDate(dateTo.value)
    ensures |r| == (if dateFrom.Some? then 1 else 0) + (if dateTo.Some? then 1 else 0)
    ensures dateFrom.Some? ==> r[0] == FromCondition(dateFrom.value)
    ensures dateTo.Some? ==> r[|r| - 1] == ToCondition(dateTo.value)
  {
    (if dateFrom.Some? then [FromCondition(dateFrom.value)] else []) +
    (if dateTo.Some? then [ToCondition(dateTo.value)] else [])
  }

  /** `where`: empty without conditions, otherwise `where ` and the conditions joined by ` and `. */
  function WhereClause(wheres: seq<string>): (r: string)
    ensures r == "" <==> wheres == []
    ensures wheres != [] ==> |r| >= 6 && r[..6] == "where "
    ensures |wheres| == 1 ==> r[6..] == wheres[0]
  {
    if |wheres| > 0 then "where " + Text.Join(" and ", wheres) else ""
  }

  /** The statement after `dedent`; a where-less statement keeps an empty line. */
  function AgencySql(where: string): (r: string)
    ensures |r| == |AgencySqlHead| + |where| + |AgencySqlTail|
    ensures r[..|AgencySqlHead|] == AgencySqlHead && r[|r| - |AgencySqlTail|..] == AgencySqlTail
    ensures r[|AgencySqlHead|..|r| - |AgencySqlTail|] == where
  {
    AgencySqlHead + where + AgencySqlTail
  }

  const AgencySqlHead := "\nselect date, operator_ref, agency_name\nfrom gtfs_route\n"
  const AgencySqlTail := "\ngroup by date, operator_ref, agency_name\norder by date, agency_name\nlimit :limit offset :offset\n"

  /** The WHERE text is empty exactly when neither date is given. */
  lemma WhereClauseEmpty(dateFrom: Option<Date>, dateTo: Option<Date>)
    requires dateFrom.Some? ==> ValidDate(dateFrom.value)
    requires dateTo.Some? ==> ValidDate(dateTo.value)
    ensures WhereClause(Conditions(dateFrom, dateTo)) == "" <==> dateFrom.None? && dateTo.None?
  {
    var w := WhereClause(Conditions(dateFrom, dateTo));
    if dateFrom.Some? || dateTo.Some? {
      assert w[0] == 'w';
    }
  }

  /** Two conditions joined by ` and `. */
  lemma JoinTwo(a: string, b: string)
    ensures Text.Join(" and ", [a, b]) == a + " and " + b
  {
    assert [a, b][1..] == [b];
  }

  /** With both dates the clause is the two bounds joined by ` and `, the lower one first. */
  lemma WhereClauseBoth(dateFrom: Date, dateTo: Date)
    requires ValidDate(dateFrom) && ValidDate(dateTo)
    ensures WhereClause(Conditions(Some(dateFrom), Some(dateTo)))
         == "where date >= '" + IsoDate(dateFrom) + "' and date <= '" + IsoDate(dateTo) + "'"
  {
    var x, y := IsoDate(dateFrom), IsoDate(dateTo);
    assert Conditions(Some(dateFrom), Some(dateTo)) == ["date >= '" + x + "'", "date <= '" + y + "'"];
    JoinTwo("date >= '" + x + "'", "date <= '" + y + "'");
    BothText(x, y);
  }

  /** The two conditions spelled out after `where `. */
  lemma BothText(x: string, y: string)
    ensures "where " + (("date >= '" + x + "'") + " and " + ("date <= '" + y + "'"))
         == "where date >= '" + x + "' and date <= '" + y + "'"
  {
    assert "where " + "date >= '" == "where date >= '";
    assert "'" + " and " + "date <= '" == "' and date <= '";
  }

  /** The lower bound's date can be read back from the clause, so the clause names that date. */
  lemma WhereClauseFromReadsBack(dateFrom: Date, dateTo: Option<Date>)
    requires ValidDate(dateFrom)
    requires dateTo.Some? ==> ValidDate(dateTo.value)
    ensures var w := WhereClause(Conditions(Some(dateFrom), dateTo));
      |w| >= 25 && w[..15] == "where date >= '" && ParseIsoDate(w[15..25]) == Some(dateFrom)
  {
    var c := Conditions(Some(dateFrom), dateTo);
    var iso := IsoDate(dateFrom);
    var rest := if dateTo.Some? then " and " + ToCondition(dateTo.value) else "";
    if dateTo.Some? {
      JoinTwo(c[0], c[1]);
      assert c == [c[0], c[1]];
    }
    FromText(iso, rest);
    assert WhereClause(c) == "where date >= '" + iso + ("'" + rest);
    PrefixThenText("where date >= '", iso, "'" + rest);
    IsoDateRoundTrip(dateFrom);
  }

  /** The lower bound spelled out after `where `. */
  lemma FromText(x: string, rest: string)
    ensures "where " + ("date >= '" + x + "'") + rest == "where date >= '" + x + ("'" + rest)
  {
    assert "where " + "date >= '" == "where date >= '";
  }

  /** The text after a known prefix is found at the prefix's length. */
  lemma PrefixThenText(p: string, t: string, rest: string)
    ensures (p + t + rest)[..|p|] == p && (p + t + rest)[|p|..|p| + |t|] == t
  {
  }

  /** One result row as a record: too short rows and wrong kinds fail. */
  function ToAgency(row: Record): (r: Result<Agency, Error>)
    ensures |row| < 3 ==> r == Err(RowTooShort)
    ensures r.Ok? ==> row[0] == Day(r.value.date) && row[1] == Int(r.value.operatorRef) && row[2] == Str(r.value.agencyName)
    ensures |row| >= 3 && row[0].Day? && row[1].Int? && row[2].Str? ==> r.Ok?
  {
    if |row| < 3 then Err(RowTooShort)
    else if row[0].Day? && row[1].Int? && row[2].Str? then Ok(Agency(row[0].date, row[1].i, row[2].s))
    else Err(InvalidRecord)
  }

  /**
   * The records of all rows, in order; the first row that does not convert
   * decides the error.
   */
  function ToAgencies(rows: seq<Record>): (r: Result<seq<Agency>, Error>)
    ensures r.Ok? <==> forall i :: 0 <= i < |rows| ==> ToAgency(rows[i]).Ok?
    ensures r.Ok? ==> |r.value| == |rows| && forall i :: 0 <= i < |rows| ==> ToAgency(rows[i]) == Ok(r.value[i])
  {
    if rows == [] then Ok([])
    else
      var init := rows[..|rows| - 1];
      match ToAgencies(init)
      case Err(e) => Err(e)
      case Ok(done) =>
        var last := ToAgency(rows[|rows| - 1]);
        if last.Err? then Err(last.error) else Ok(done + [last.value])
  }

  /** A failure is the error of the first row that does not convert. */
  lemma {:induction false} ToAgenciesFirstError(rows: seq<Record>) returns (k: nat)
    requires ToAgencies(rows).Err?
    ensures k < |rows| && ToAgency(rows[k]) == Err(ToAgencies(rows).error)
    ensures forall j :: 0 <= j < k ==> ToAgency(rows[j]).Ok?
  {
    var init := rows[..|rows| - 1];
    if ToAgencies(init).Err? {
      k := ToAgenciesFirstError(init);
      assert rows[k] == init[k];
      assert forall j :: 0 <= j < k ==> rows[j] == init[j];
    } else {
      k := |rows| - 1;
      assert forall j :: 0 <= j < k ==> rows[j] == init[j];
    }
  }

  /** Once a prefix fails, more rows do not change the error. */
  lemma {:induction false} ToAgenciesFailedPrefix(rows: seq<Record>, n: nat)
    requires n <= |rows|
    requires ToAgencies(rows[..n]).Err?
    ensures ToAgencies(rows) == ToAgencies(rows[..n])
    decreases |rows| - n
  {
    if n < |rows| {
      assert rows[..n + 1][..n] == rows[..n];
      ToAgenciesFailedPrefix(rows, n + 1);
    } else {
      assert rows[..n] == rows;
    }
  }

  /**
   * `list_`: opens a session, checks the limit, builds the WHERE clause,
   * runs the statement and turns every row into a record; the session is
   * closed on every path, the failed limit check included.
   */
  method List(maker: SessionMaker, limit: Option<int>, offset: Option<int>, dateFrom: Option<Date>, dateTo: Option<Date>)
    returns (r: Result<seq<Agency>, Error>)
    requires maker.AllClosed()
    requires dateFrom.Some? ==> ValidDate(dateFrom.value)
    requires dateTo.Some? ==> ValidDate(dateTo.value)
    modifies maker
    ensures maker.AllClosed()
    ensures |maker.sessions| == |old(maker.sessions)| + 1
    ensures maker.sessions[..|old(maker.sessions)|] == old(maker.sessions)
    ensures var s := maker.sessions[|maker.sessions| - 1];
      (EffectiveLimit(limit) > ListMaxLimit ==> r == Err(LimitTooLarge) && s.executed == []) &&
      (EffectiveLimit(limit) <= ListMaxLimit ==>
        var sql := AgencySql(WhereClause(Conditions(dateFrom, dateTo)));
        var ps := PagingParams(EffectiveLimit(limit), EffectiveOffset(offset));
        s.executed == [Statement(sql, ps)] &&
        (maker.db(sql, ps).Err? ==> r == Err(DbError(maker.db(sql, ps).error))) &&
        (maker.db(sql, ps).Ok? ==> r == ToAgencies(maker.db(sql, ps).value)))
  {
    var session := maker.Make();
    assert maker.sessions[|maker.sessions| - 1] == session;
    var lim, off := limit, offset;
    if !Truthy(lim) {
      lim := Some(ListMaxLimit);
    }
    if lim.value > ListMaxLimit {
      session.Close();
      return Err(LimitTooLarge);
    }
    if !Truthy(off) {
      off := Some(0);
    }
    var where := BuildWhere(dateFrom, dateTo);
    var sql := AgencySqlHead + where + AgencySqlTail;
    assert sql == AgencySql(where);
    var answer := session.Execute(sql, PagingParams(lim.value, off.value));
    if answer.Err? {
      session.Close();
      return Err(DbError(answer.error));
    }
    r := ConvertRows(answer.value);
    session.Close();
  }

  /** The WHERE part of `list_`: the conditions collected in a list, then joined. */
  method BuildWhere(dateFrom: Option<Date>, dateTo: Option<Date>) returns (where: string)
    requires dateFrom.Some? ==> ValidDate(dateFrom.value)
    requires dateTo.Some? ==> ValidDate(dateTo.value)
    ensures where == WhereClause(Conditions(dateFrom, dateTo))
  {
    var wheres: seq<string> := [];
    if dateFrom.Some? {
      wheres := wheres + ["date >= '" + IsoDate(dateFrom.value) + "'"];
    }
    if dateTo.Some? {
      wheres := wheres + ["date <= '" + IsoDate(dateTo.value) + "'"];
    }
    assert wheres == Conditions(dateFrom, dateTo);
    where := "";
    if |wheres| > 0 {
      where := "where " + Text.Join(" and ", wheres);
    }
  }

  /** The loop of `list_` over the result rows: one record per row, in order, or the first failure. */
  method ConvertRows(rows: seq<Record>) returns (r: Result<seq<Agency>, Error>)
    ensures r == ToAgencies(rows)
  {
    var res: seq<Agency> := [];
    var i := 0;
    while i < |rows|
      invariant 0 <= i <= |rows|
      invariant ToAgencies(rows[..i]) == Ok(res)
    {
      var row := rows[i];
      assert rows[..i + 1][..i] == rows[..i];
      if |row| < 3 {
        ToAgenciesFailedPrefix(rows, i + 1);
        return Err(RowTooShort);
      }
      if !(row[0].Day? && row[1].Int? && row[2].Str?) {
        ToAgenciesFailedPrefix(rows, i + 1);
        return Err(InvalidRecord);
      }
      res := res + [Agency(row[0].date, row[1].i, row[2].s)];
      i := i + 1;
    }
    assert rows[..i] == rows;
    return Ok(res);
  }
}
