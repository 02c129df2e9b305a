/**
 * The database boundary as the endpoints see it.  The database itself is an
 * oracle from an SQL statement and its bound parameters to either result rows
 * or a driver error; what the model tracks is which statements each session
 * sent and whether every session was closed again.
 */
module Db {
  import opened Wrappers
  import Text

  /** A calendar date (Python `datetime.date`). */
  datatype Date = Date(year: int, month: int, day: int)

  /** The range Python's `datetime.date` accepts (day-of-month bound kept coarse). */
  predicate ValidDate(d: Date)
  {
    1 <= d.year <= 9999 && 1 <= d.month <= 12 && 1 <= d.day <= 31
  }

  /** Python's `str(d)` for a date, also `d.strftime('%Y-%m-%d')`: `YYYY-MM-DD`. */
  function IsoDate(d: Date): (r: string)
    requires ValidDate(d)
    ensures |r| == 10 && r[4] == '-' && r[7] == '-'
    ensures Text.IsDigits(r[..4]) && Text.IsDigits(r[5..7]) && Text.IsDigits(r[8..])
  {
    Text.NatToStringLength(d.year, 4);
    Text.NatToStringLength(d.month, 2);
    Text.NatToStringLength(d.day, 2);
    Text.ZeroPad(d.year, 4) + "-" + Text.ZeroPad(d.month, 2) + "-" + Text.ZeroPad(d.day, 2)
  }

  /** Reads a `YYYY-MM-DD` text back into a date. */
  function ParseIsoDate(s: string): Option<Date>
  {
    if |s| == 10 && s[4] == '-' && s[7] == '-' &&
       Text.IsDigits(s[..4]) && Text.IsDigits(s[5..7]) && Text.IsDigits(s[8..])
    then Some(Date(Text.DigitsValue(s[..4]), Text.DigitsValue(s[5..7]), Text.DigitsValue(s[8..])))
    else None
  }

  /** The rendered date reads back as the same date, so distinct dates render differently. */
  lemma IsoDateRoundTrip(d: Date)
    requires ValidDate(d)
    ensures ParseIsoDate(IsoDate(d)) == Some(d)
  {
    var s := IsoDate(d);
    Text.NatToStringLength(d.year, 4);
    Text.NatToStringLength(d.month, 2);
    Text.NatToStringLength(d.day, 2);
    assert s[..4] == Text.ZeroPad(d.year, 4);
    assert s[5..7] == Text.ZeroPad(d.month, 2);
    assert s[8..] == Text.ZeroPad(d.day, 2);
    Text.ZeroPadRoundTrip(d.year, 4);
    Text.ZeroPadRoundTrip(d.month, 2);
    Text.ZeroPadRoundTrip(d.day, 2);
  }

  /** A column value: SQL NULL, an integer (datetimes as whole seconds), text or a date. */
  datatype Value = Null | Int(i: int) | Str(s: string) | Day(date: Date)

  /** A result object by attribute name; an absent attribute reads as NULL. */
  type Row = map<string, Value>

  /** A result row by column position. */
  type Record = seq<Value>

  /** Bound parameters of a statement (`:name` placeholders). */
  type Params = map<string, Value>

  datatype Statement = Statement(sql: string, params: Params)

  /** What the database answers to a statement. */
  type Oracle = (string, Params) -> Result<seq<Record>, string>

  /** Python truthiness of an optional integer argument: neither `None` nor `0`. */
  predicate Truthy(o: Option<int>)
  {
    o.Some? && o.value != 0
  }

  /** Python's `str(v)`, also `'{}'.format(v)`. */
  function PyStr(v: Value): (r: string)
    ensures v.Null? ==> r == "None"
    ensures v.Str? ==> r == v.s
    ensures v.Int? ==> |r| >= 1 && (v.i < 0 <==> r[0] == '-')
    ensures v.Int? && v.i >= 0 ==> Text.IsDigits(r) && Text.DigitsValue(r) == v.i
    ensures v.Day? && ValidDate(v.date) ==> ParseIsoDate(r) == Some(v.date)
  {
    match v
    case Null => "None"
    case Int(i) =>
      if i >= 0 then Text.NatToStringRoundTrip(i); Text.IntToString(i) else Text.IntToString(i)
    case Str(s) => s
    case Day(d) => if ValidDate(d) then IsoDateRoundTrip(d); IsoDate(d) else ""
  }

  /**
   * `if not limit and fallback: limit = fallback`: a falsy limit becomes the
   * fallback when that is truthy; a truthy limit is used as given, not capped.
   */
  function LimitOrDefault(limit: Option<int>, fallback: Option<int>): (r: Option<int>)
    ensures Truthy(limit) ==> r == limit
    ensures !Truthy(limit) && Truthy(fallback) ==> r == fallback
    ensures !Truthy(limit) && !Truthy(fallback) ==> !Truthy(r)
  {
    if !Truthy(limit) && Truthy(fallback) then fallback else limit
  }

  /** One database session: open until closed, with the log of statements it sent. */
  class Session {
    var open: bool
    ghost var executed: seq<Statement>
    const db: Oracle

    constructor (db: Oracle)
      ensures open && executed == [] && this.db == db
    {
      this.db := db;
      open := true;
      executed := [];
    }

    /** `session.execute(sql, params)`. */
    method Execute(sql: string, params: Params) returns (r: Result<seq<Record>, string>)
      requires open
      modifies this
      ensures open && executed == old(executed) + [Statement(sql, params)]
      ensures r == db(sql, params)
    {
      executed := executed + [Statement(sql, params)];
      r := db(sql, params);
    }

    /** `session.close()`. */
    method Close()
      modifies this
      ensures !open && executed == old(executed)
    {
      open := false;
    }
  }

  /** The session factory (`_sessionmaker` / `get_session`), remembering every session it made. */
  class SessionMaker {
    const db: Oracle
    ghost var sessions: seq<Session>

    /** No session this factory made is still open. */
    ghost predicate AllClosed()
      reads this, sessions
    {
      forall i :: 0 <= i < |sessions| ==> !sessions[i].open
    }

    constructor (db: Oracle)
      ensures this.db == db && sessions == [] && AllClosed()
    {
      this.db := db;
      sessions := [];
    }

    method Make() returns (s: Session)
      modifies this
      ensures fresh(s) && s.open && s.executed == [] && s.db == db
      ensures sessions == old(sessions) + [s]
    {
      s := new Session(db);
      sessions := sessions + [s];
    }
  }
}
