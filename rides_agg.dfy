/**
 * The GTFS rides aggregation endpoints of `routers/gtfs_rides_agg.py`: a paged
 * list over hand-written SQL, and a group-by whose field list comes from the
 * request, is checked against an allow-list and becomes parallel select and
 * group-by lists.
 */
module RidesAgg {
  import opened Wrappers
  import opened Db
  import Text
  import SqlRoute

  const DefaultLimit := 1000

  /** The only fields a request may group by. */
  const AllowedGroupByFields: seq<string> := ["gtfs_route_date", "operator_ref", "day_of_week", "clustername"]

  /** The ordering the list endpoint always asks for. */
  const ListOrderBy := "gtfs_route_date asc, gtfs_route_id asc"

  /** The list endpoint's SQL after `dedent`. */
  const ListSql := "\nselect\n    agg.gtfs_route_id,\n    agg.gtfs_route_date,\n    agg.num_planned_rides,\n    agg.num_actual_rides,\n    rt.operator_ref\nfrom gtfs_rides_agg agg, gtfs_route rt\nwhere\n    agg.gtfs_route_id = rt.id\n    and agg.gtfs_route_date >= :date_from\n    and agg.gtfs_route_date <= :date_to\n"

  datatype Error =
    | InvalidGroupByFields(fields: seq<string>)  // a requested field is not in the allow-list
    | Adapter(error: SqlRoute.Error)             // raised by the raw-SQL adapter

  function DateParams(dateFrom: Date, dateTo: Date): Params
  {
    map["date_from" := Day(dateFrom), "date_to" := Day(dateTo)]
  }

  /**
   * `list_`: the aggregation rows between two dates, through the raw-SQL adapter
   * with default limit 1000, a fixed ordering and ordering not skipped.
   */
  method List<T>(maker: SessionMaker, limit: Option<int>, offset: Option<int>, getCount: bool,
                 dateFrom: Date, dateTo: Date, normalize: SqlRoute.Normalizer, postProcess: Record -> T)
    returns (r: Result<SqlRoute.Response<T>, SqlRoute.Error>)
    requires maker.AllClosed()
    modifies maker
    ensures maker.AllClosed()
    ensures |maker.sessions| == |old(maker.sessions)| + 1
    ensures maker.sessions[..|old(maker.sessions)|] == old(maker.sessions)
    ensures var s := maker.sessions[|maker.sessions| - 1];
            var p := SqlRoute.Plan(ListSql, Some(DefaultLimit), limit, offset, getCount, Some(ListOrderBy), false, normalize);
            (p.Err? ==> s.executed == [] && r == Err(p.error)) &&
            (p.Ok? ==> s.executed == [Statement(p.value, DateParams(dateFrom, dateTo))] &&
                       r == SqlRoute.Deliver(getCount, maker.db(p.value, DateParams(dateFrom, dateTo)), postProcess))
  {
    r := SqlRoute.List(maker, ListSql, DateParams(dateFrom, dateTo), Some(DefaultLimit), limit, offset, getCount,
                       Some(ListOrderBy), false, normalize, postProcess);
  }

  /** A falsy limit reaches the normaliser as the default 1000, a truthy one as given. */
  lemma ListLimitReachingNormalizer(limit: Option<int>, offset: Option<int>, normalize: SqlRoute.Normalizer)
    ensures SqlRoute.NormalizedFor(normalize, false, Some(ListOrderBy), Some(DefaultLimit), limit, offset)
         == normalize(false, Some(ListOrderBy), false, if Truthy(limit) then limit else Some(1000), offset)
  {
  }

  // ---------------------------------------------------------------- the group-by field list

  /** The stripped pieces that are not empty, in order. */
  function KeepStripped(parts: seq<string>, c: char): (r: seq<string>)
    requires forall j :: 0 <= j < |parts| ==> c !in parts[j]
    ensures |r| <= |parts|
    ensures forall i :: 0 <= i < |r| ==> r[i] != "" && c !in r[i] && Text.Stripped(r[i])
  {
    if parts == [] then []
    else
      var f := Text.Strip(parts[0]);
      assert c !in f;
      var head := if f != "" then [f] else [];
      var tail := KeepStripped(parts[1..], c);
      assert forall i :: 0 <= i < |head| ==> head[i] == f;
      head + tail
  }

  /**
   * `[f.strip() for f in group_by.split(',') if f.strip()]`: the requested
   * names, each non-empty, comma-free and stripped, in request order.
   */
  function ParseGroupBy(groupBy: string): (r: seq<string>)
    ensures forall i :: 0 <= i < |r| ==> r[i] != "" && ',' !in r[i] && Text.Stripped(r[i])
  {
    KeepStripped(Text.Split(groupBy, ','), ',')
  }

  /** A piece in front that is already stripped and non-empty is kept as it is. */
  lemma KeepStrippedCons(parts: seq<string>, c: char)
    requires parts != [] && forall j :: 0 <= j < |parts| ==> c !in parts[j]
    requires parts[0] != "" && Text.Stripped(parts[0])
    ensures KeepStripped(parts, c) == [parts[0]] + KeepStripped(parts[1..], c)
  {
  }

  /** Pieces that are already stripped and non-empty are all kept, unchanged. */
  lemma {:induction false} KeepStrippedKeepsClean(parts: seq<string>, c: char)
    requires forall j :: 0 <= j < |parts| ==> c !in parts[j] && parts[j] != "" && Text.Stripped(parts[j])
    ensures KeepStripped(parts, c) == parts
  {
    if parts != [] {
      var tail := parts[1..];
      assert forall j :: 0 <= j < |tail| ==> tail[j] == parts[j + 1];
      KeepStrippedKeepsClean(tail, c);
      KeepStrippedCons(parts, c);
      assert [parts[0]] + tail == parts;
    }
  }

  /** The non-empty texts of `xs`, in order. */
  function NonEmpty(xs: seq<string>): seq<string>
  {
    if xs == [] then [] else (if xs[0] != "" then [xs[0]] else []) + NonEmpty(xs[1..])
  }

  /** The positions of the non-empty texts of `xs`, in order. */
  function NonEmptyAt(xs: seq<string>): seq<int>
  {
    if xs == [] then [] else (if xs[0] != "" then [0] else []) + Shift(NonEmptyAt(xs[1..]))
  }

  function Shift(p: seq<int>): seq<int>
  {
    seq(|p|, k requires 0 <= k < |p| => p[k] + 1)
  }

  /** Position `k` of `NonEmpty(xs)` holds the text at position `NonEmptyAt(xs)[k]`. */
  lemma {:induction false} NonEmptyAtIndexes(xs: seq<string>)
    ensures |NonEmptyAt(xs)| == |NonEmpty(xs)|
    ensures forall k :: 0 <= k < |NonEmptyAt(xs)| ==>
      0 <= NonEmptyAt(xs)[k] < |xs| && NonEmpty(xs)[k] == xs[NonEmptyAt(xs)[k]]
  {
    if xs != [] {
      var tail := xs[1..];
      NonEmptyAtIndexes(tail);
      var pos, rest, kept := NonEmptyAt(xs), NonEmptyAt(tail), NonEmpty(xs);
      var h := if xs[0] != "" then 1 else 0;
      forall k | 0 <= k < |pos|
        ensures 0 <= pos[k] < |xs| && kept[k] == xs[pos[k]]
      {
        if k >= h {
          assert pos[k] == rest[k - h] + 1 && kept[k] == NonEmpty(tail)[k - h];
          assert tail[rest[k - h]] == xs[rest[k - h] + 1];
        }
      }
    }
  }

  /** The positions are strictly increasing and within `xs`. */
  lemma {:induction false} NonEmptyAtIncreasing(xs: seq<string>)
    ensures forall k :: 0 <= k < |NonEmptyAt(xs)| ==> 0 <= NonEmptyAt(xs)[k] < |xs|
    ensures forall k, l :: 0 <= k < l < |NonEmptyAt(xs)| ==> NonEmptyAt(xs)[k] < NonEmptyAt(xs)[l]
  {
    if xs != [] {
      NonEmptyAtIncreasing(xs[1..]);
      var pos, rest := NonEmptyAt(xs), NonEmptyAt(xs[1..]);
      var h := if xs[0] != "" then 1 else 0;
      forall k | 0 <= k < |pos|
        ensures 0 <= pos[k] < |xs|
      {
        if k >= h {
          assert pos[k] == rest[k - h] + 1;
        }
      }
      forall k, l | 0 <= k < l < |pos|
        ensures pos[k] < pos[l]
      {
        if k >= h {
          assert pos[k] == rest[k - h] + 1;
        }
        assert pos[l] == rest[l - h] + 1;
      }
    }
  }

  /** Every non-empty text of `xs` has its position listed. */
  lemma {:induction false} NonEmptyAtCovers(xs: seq<string>)
    ensures forall i :: 0 <= i < |xs| && xs[i] != "" ==> i in NonEmptyAt(xs)
  {
    if xs != [] {
      var tail := xs[1..];
      NonEmptyAtCovers(tail);
      var pos, rest := NonEmptyAt(xs), NonEmptyAt(tail);
      var h := if xs[0] != "" then 1 else 0;
      forall i | 0 <= i < |xs| && xs[i] != ""
        ensures i in pos
      {
        if i == 0 {
          assert pos[0] == 0;
        } else {
          assert tail[i - 1] == xs[i];
          var k :| 0 <= k < |rest| && rest[k] == i - 1;
          assert pos[h + k] == i;
        }
      }
    }
  }

  /** Every piece stripped, in order. */
  function StripAll(parts: seq<string>): seq<string>
  {
    seq(|parts|, i requires 0 <= i < |parts| => Text.Strip(parts[i]))
  }

  /** Keeping the stripped pieces is stripping every piece, then keeping the non-empty ones. */
  lemma {:induction false} KeepStrippedIsNonEmpty(parts: seq<string>, c: char)
    requires forall j :: 0 <= j < |parts| ==> c !in parts[j]
    ensures KeepStripped(parts, c) == NonEmpty(StripAll(parts))
  {
    if parts != [] {
      var tail := parts[1..];
      var f := Text.Strip(parts[0]);
      var head := if f != "" then [f] else [];
      assert forall j :: 0 <= j < |tail| ==> c !in tail[j] by {
        assert forall j :: 0 <= j < |tail| ==> tail[j] == parts[j + 1];
      }
      calc {
        KeepStripped(parts, c);
        head + KeepStripped(tail, c);
        { KeepStrippedIsNonEmpty(tail, c); }
        head + NonEmpty(StripAll(tail));
        { NonEmptyStripAllStep(parts); }
        NonEmpty(StripAll(parts));
      }
    }
  }

  /** One step of `NonEmpty` over the stripped pieces. */
  lemma NonEmptyStripAllStep(parts: seq<string>)
    requires parts != []
    ensures var f := Text.Strip(parts[0]);
            NonEmpty(StripAll(parts)) == (if f != "" then [f] else []) + NonEmpty(StripAll(parts[1..]))
  {
    assert StripAll(parts)[1..] == StripAll(parts[1..]);
  }

  /**
   * The pieces kept, by position: strictly increasing positions of the
   * pieces, each kept in stripped form, and every piece that does not strip
   * to nothing among them.
   */
  lemma KeepStrippedPositions(parts: seq<string>, c: char) returns (pos: seq<int>)
    requires forall j :: 0 <= j < |parts| ==> c !in parts[j]
    ensures |pos| == |KeepStripped(parts, c)|
    ensures forall k :: 0 <= k < |pos| ==> 0 <= pos[k] < |parts| && KeepStripped(parts, c)[k] == Text.Strip(parts[pos[k]])
    ensures forall k, l :: 0 <= k < l < |pos| ==> pos[k] < pos[l]
    ensures forall i :: 0 <= i < |parts| && Text.Strip(parts[i]) != "" ==> i in pos
  {
    var strips := StripAll(parts);
    KeepStrippedIsNonEmpty(parts, c);
    NonEmptyAtIndexes(strips);
    NonEmptyAtIncreasing(strips);
    NonEmptyAtCovers(strips);
    pos := NonEmptyAt(strips);
  }

  /**
   * Every requested name that is not blank is kept, stripped of its
   * padding, in request order: position `k` of the parsed list is the
   * stripped piece at position `pos[k]` of the comma split.
   */
  lemma ParseGroupByPositions(groupBy: string) returns (pos: seq<int>)
    ensures var parts := Text.Split(groupBy, ',');
            |pos| == |ParseGroupBy(groupBy)| &&
            (forall k :: 0 <= k < |pos| ==> 0 <= pos[k] < |parts| && ParseGroupBy(groupBy)[k] == Text.Strip(parts[pos[k]])) &&
            (forall k, l :: 0 <= k < l < |pos| ==> pos[k] < pos[l]) &&
            (forall i :: 0 <= i < |parts| && Text.Strip(parts[i]) != "" ==> i in pos)
  {
    pos := KeepStrippedPositions(Text.Split(groupBy, ','), ',');
  }

  /**
   * Names joined by commas parse back to the same names, order and
   * duplicates included.
   */
  lemma ParseGroupByJoin(names: seq<string>)
    requires forall i :: 0 <= i < |names| ==> names[i] != "" && ',' !in names[i] && Text.Stripped(names[i])
    ensures ParseGroupBy(Text.Join(",", names)) == names
  {
    if names == [] {
      assert Text.Split("", ',') == [""];
    } else {
      Text.SplitJoin(names, ',');
      assert [','] == ",";
      KeepStrippedKeepsClean(names, ',');
    }
  }

  /** Pieces made only of whitespace all vanish. */
  lemma {:induction false} KeepStrippedDropsBlank(parts: seq<string>, c: char)
    requires forall j :: 0 <= j < |parts| ==> c !in parts[j]
    requires forall j, ch :: 0 <= j < |parts| && ch in parts[j] ==> Text.IsSpace(ch)
    ensures KeepStripped(parts, c) == []
  {
    if parts != [] {
      var p := parts[0];
      assert forall k :: 0 <= k < |p| ==> Text.IsSpace(p[k]) by {
        forall k | 0 <= k < |p| ensures Text.IsSpace(p[k]) {
          assert p[k] in parts[0];
        }
      }
      KeepStrippedDropsBlank(parts[1..], c);
    }
  }

  /** A request of only commas and whitespace (`","`, say) names no field at all. */
  lemma BlankGroupByNamesNothing(groupBy: string)
    requires forall k :: 0 <= k < |groupBy| ==> groupBy[k] == ',' || Text.IsSpace(groupBy[k])
    ensures ParseGroupBy(groupBy) == []
    ensures AllAllowed(ParseGroupBy(groupBy))
  {
    var parts := Text.Split(groupBy, ',');
    forall j, ch | 0 <= j < |parts| && ch in parts[j]
      ensures Text.IsSpace(ch)
    {
      assert ch in groupBy && ch != ',';
    }
    KeepStrippedDropsBlank(parts, ',');
  }

  /** `all(f in ALLOWED_GROUP_BY_FIELDS for f in group_by)`. */
  predicate AllAllowed(names: seq<string>)
  {
    forall i :: 0 <= i < |names| ==> names[i] in AllowedGroupByFields
  }

  /** Every allowed name is a clean group-by name: non-empty, comma-free and stripped. */
  lemma AllowedNameClean(n: string)
    requires n in AllowedGroupByFields
    ensures n != "" && ',' !in n && Text.Stripped(n)
  {
    var i :| 0 <= i < |AllowedGroupByFields| && AllowedGroupByFields[i] == n;
  }

  /**
   * Allowed names written as the documented comma-separated list parse back
   * to the same names and pass the allow-list check.
   */
  lemma AllowedNamesRoundTrip(names: seq<string>)
    requires AllAllowed(names)
    ensures ParseGroupBy(Text.Join(",", names)) == names
    ensures AllAllowed(ParseGroupBy(Text.Join(",", names)))
  {
    forall i | 0 <= i < |names|
      ensures names[i] != "" && ',' !in names[i] && Text.Stripped(names[i])
    {
      AllowedNameClean(names[i]);
    }
    ParseGroupByJoin(names);
  }

  /** The weekday name of the route date, lower-case and trimmed. */
  const DayOfWeekExpr := "trim(lower(to_char(agg.gtfs_route_date, 'DAY')))"

  /** The SQL expression a group-by name stands for. */
  function FullFieldName(name: string): (r: string)
    ensures name == "gtfs_route_date" ==> r == "agg.gtfs_route_date"
    ensures name == "day_of_week" ==> r == DayOfWeekExpr
    ensures name != "day_of_week" && name != "gtfs_route_date" ==> r == "rt." + name
    ensures name != "day_of_week" ==> |r| > |name| && r[|r| - |name|..] == name
    ensures name != "day_of_week" && name != "gtfs_route_date" ==> |r| >= 3 && r[..3] == "rt."
  {
    if name == "gtfs_route_date" then "agg.gtfs_route_date"
    else if name == "day_of_week" then DayOfWeekExpr
    else "rt." + name
  }

  /** The first character tells which of the three forms an expression has. */
  lemma FullFieldNameHead(name: string)
    ensures |FullFieldName(name)| >= 3
    ensures FullFieldName(name)[0] ==
      if name == "gtfs_route_date" then 'a' else if name == "day_of_week" then 't' else 'r'
  {
    assert DayOfWeekExpr == "trim(" + DayOfWeekExpr[5..];
    assert "agg.gtfs_route_date" == "agg." + "gtfs_route_date";
  }

  /** Different names never stand for the same expression. */
  lemma FullFieldNameInjective(a: string, b: string)
    requires FullFieldName(a) == FullFieldName(b)
    ensures a == b
  {
    FullFieldNameHead(a);
    FullFieldNameHead(b);
    if FullFieldName(a)[0] == 'r' {
      assert a == FullFieldName(a)[3..] && b == FullFieldName(b)[3..];
    }
  }

  /** The select list: every expression labelled with its name. */
  function SelectFieldsOf(names: seq<string>): seq<string>
  {
    seq(|names|, i requires 0 <= i < |names| => FullFieldName(names[i]) + " as " + names[i])
  }

  /** The group-by list: the bare expressions. */
  function GroupByFieldsOf(names: seq<string>): seq<string>
  {
    seq(|names|, i requires 0 <= i < |names| => FullFieldName(names[i]))
  }

  /** Distinct requested names give distinct group-by expressions. */
  lemma GroupByFieldsDistinct(names: seq<string>)
    requires forall i, j :: 0 <= i < j < |names| ==> names[i] != names[j]
    ensures forall i, j :: 0 <= i < j < |names| ==> GroupByFieldsOf(names)[i] != GroupByFieldsOf(names)[j]
  {
    forall i, j | 0 <= i < j < |names|
      ensures GroupByFieldsOf(names)[i] != GroupByFieldsOf(names)[j]
    {
      if FullFieldName(names[i]) == FullFieldName(names[j]) {
        FullFieldNameInjective(names[i], names[j]);
      }
    }
  }

  /** The loop of `group_by_`: parallel select and group-by lists, one entry per name. */
  method BuildFieldLists(names: seq<string>) returns (selectFields: seq<string>, groupByFields: seq<string>)
    ensures |selectFields| == |names| && |groupByFields| == |names|
    ensures forall i :: 0 <= i < |names| ==>
      groupByFields[i] == FullFieldName(names[i]) && selectFields[i] == FullFieldName(names[i]) + " as " + names[i]
  {
    selectFields, groupByFields := [], [];
    var k := 0;
    while k < |names|
      invariant 0 <= k <= |names|
      invariant |selectFields| == k && |groupByFields| == k
      invariant forall i :: 0 <= i < k ==>
        groupByFields[i] == FullFieldName(names[i]) && selectFields[i] == FullFieldName(names[i]) + " as " + names[i]
    {
      var fieldname := names[k];
      var fullFieldname;
      if fieldname == "gtfs_route_date" {
        fullFieldname := "agg.gtfs_route_date";
      } else if fieldname == "day_of_week" {
        fullFieldname := DayOfWeekExpr;
      } else {
        fullFieldname := "rt." + fieldname;
      }
      selectFields := selectFields + [fullFieldname + " as " + fieldname];
      groupByFields := groupByFields + [fullFieldname];
      k := k + 1;
    }
  }

  /** The group-by SQL after `dedent`, with the two lists joined by commas. */
  function GroupBySql(selectFields: seq<string>, groupByFields: seq<string>): string
  {
    GroupBySelect + Text.Join(", ", selectFields) + GroupByBody + Text.Join(", ", groupByFields) + "\n"
  }

  /**
   * The select list and the group-by list can be read back from the SQL:
   * the first right after `select`, the second right before the final line break.
   */
  lemma GroupBySqlReadsBack(selectFields: seq<string>, groupByFields: seq<string>)
    ensures var r := GroupBySql(selectFields, groupByFields);
            var sel, gb := Text.Join(", ", selectFields), Text.Join(", ", groupByFields);
            |r| == |GroupBySelect| + |sel| + |GroupByBody| + |gb| + 1 &&
            r[..|GroupBySelect|] == GroupBySelect &&
            r[|GroupBySelect|..|GroupBySelect| + |sel|] == sel &&
            r[|GroupBySelect| + |sel|..|r| - |gb| - 1] == GroupByBody &&
            r[|r| - |gb| - 1..|r| - 1] == gb && r[|r| - 1] == '\n'
  {
  }

  /** The text before the select list. */
  const GroupBySelect := "\nselect\n    "

  /** The fixed text between the select list and the group-by list. */
  const GroupByBody := ",\n    count(1) as total_routes,\n    sum(agg.num_planned_rides) as total_planned_rides,\n    sum(agg.num_actual_rides) as total_actual_rides\nfrom gtfs_rides_agg agg, gtfs_route rt join clustertoline c on rt.line_ref = c.officelineid\nwhere\n    agg.gtfs_route_id = rt.id\n    and agg.gtfs_route_date >= :date_from\n    and agg.gtfs_route_date <= :date_to\ngroup by "

  /** The group-by SQL for a list of requested names. */
  function GroupBySqlFor(names: seq<string>): string
  {
    GroupBySql(SelectFieldsOf(names), GroupByFieldsOf(names))
  }

  /**
   * The SQL for a list of names carries the labelled expressions of the
   * names right after `select` and their bare expressions at the end.
   */
  lemma GroupBySqlForReadsBack(names: seq<string>)
    ensures var r := GroupBySqlFor(names);
            var sel, gb := Text.Join(", ", SelectFieldsOf(names)), Text.Join(", ", GroupByFieldsOf(names));
            |r| > |GroupBySelect| + |sel| + |gb| &&
            r[|GroupBySelect|..|GroupBySelect| + |sel|] == sel && r[|r| - |gb| - 1..|r| - 1] == gb
  {
    GroupBySqlReadsBack(SelectFieldsOf(names), GroupByFieldsOf(names));
  }

  /** The field lists of `group_by_`, rendered into its SQL. */
  method BuildGroupBySql(names: seq<string>) returns (sql: string)
    ensures sql == GroupBySqlFor(names)
  {
    var selectFields, groupByFields := BuildFieldLists(names);
    assert selectFields == SelectFieldsOf(names) && groupByFields == GroupByFieldsOf(names);
    sql := GroupBySql(selectFields, groupByFields);
  }

  /**
   * `group_by_`: rejects a field outside the allow-list before any session is
   * made; otherwise sends the group-by SQL through the adapter with no limit,
   * offset, count or ordering, ordering skipped.
   */
  method GroupBy<T>(maker: SessionMaker, dateFrom: Date, dateTo: Date, groupBy: string,
                    normalize: SqlRoute.Normalizer, postProcess: Record -> T)
    returns (r: Result<SqlRoute.Response<T>, Error>)
    requires maker.AllClosed()
    modifies maker
    ensures maker.AllClosed()
    ensures !AllAllowed(ParseGroupBy(groupBy)) ==>
      r == Err(InvalidGroupByFields(ParseGroupBy(groupBy))) && maker.sessions == old(maker.sessions)
    ensures AllAllowed(ParseGroupBy(groupBy)) ==>
      var names := ParseGroupBy(groupBy);
      var p := SqlRoute.Plan(GroupBySqlFor(names), None, None, None, false, None, true, normalize);
      |maker.sessions| == |old(maker.sessions)| + 1 &&
      maker.sessions[..|old(maker.sessions)|] == old(maker.sessions) &&
      (p.Err? ==> r == Err(Adapter(p.error)) && maker.sessions[|maker.sessions| - 1].executed == []) &&
      (p.Ok? ==> maker.sessions[|maker.sessions| - 1].executed == [Statement(p.value, DateParams(dateFrom, dateTo))] &&
                 r == Adapted(SqlRoute.Deliver(false, maker.db(p.value, DateParams(dateFrom, dateTo)), postProcess)))
  {
    var names := ParseGroupBy(groupBy);
    if !AllAllowed(names) {
      return Err(InvalidGroupByFields(names));
    }
    r := GroupByNames(maker, dateFrom, dateTo, names, normalize, postProcess);
  }

  /** The part of `group_by_` after the allow-list check: the SQL for the names, through the adapter. */
  method GroupByNames<T>(maker: SessionMaker, dateFrom: Date, dateTo: Date, names: seq<string>,
                         normalize: SqlRoute.Normalizer, postProcess: Record -> T)
    returns (r: Result<SqlRoute.Response<T>, Error>)
    requires maker.AllClosed()
    modifies maker
    ensures maker.AllClosed()
    ensures |maker.sessions| == |old(maker.sessions)| + 1
    ensures maker.sessions[..|old(maker.sessions)|] == old(maker.sessions)
    ensures var s := maker.sessions[|maker.sessions| - 1];
      var p := SqlRoute.Plan(GroupBySqlFor(names), None, None, None, false, None, true, normalize);
      (p.Err? ==> r == Err(Adapter(p.error)) && s.executed == []) &&
      (p.Ok? ==> s.executed == [Statement(p.value, DateParams(dateFrom, dateTo))] &&
                 r == Adapted(SqlRoute.Deliver(false, maker.db(p.value, DateParams(dateFrom, dateTo)), postProcess)))
  {
    var sql := BuildGroupBySql(names);
    var res := SqlRoute.List(maker, sql, DateParams(dateFrom, dateTo), None, None, None, false, None, true,
                             normalize, postProcess);
    if res.Ok? {
      r := Ok(res.value);
    } else {
      r := Err(Adapter(res.error));
    }
  }

  /** The adapter's answer as `group_by_` returns it: the response itself, or the adapter's error. */
  function Adapted<T>(res: Result<SqlRoute.Response<T>, SqlRoute.Error>): (r: Result<SqlRoute.Response<T>, Error>)
    ensures r.Ok? <==> res.Ok?
    ensures r.Ok? ==> r.value == res.value
    ensures r.Err? ==> r.error == Adapter(res.error)
  {
    match res
    case Ok(v) => Ok(v)
    case Err(e) => Err(Adapter(e))
  }

  /**
   * The group-by call passes no limit, so it gets through the adapter's limit
   * check only if the normaliser itself supplies a limit in (0, 15000].
   */
  lemma GroupByNeedsNormalizerLimit(sql: string, normalize: SqlRoute.Normalizer)
    ensures SqlRoute.Plan(sql, None, None, None, false, None, true, normalize).Ok?
        <==> SqlRoute.WithinAbuseBound(normalize(true, None, false, None, None).limit)
  {
  }
}
