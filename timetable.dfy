/**
 * The route timetable endpoint of `routers/route_timetable.py`: its request
 * checks, the filter descriptors it hands to the generic list engine, the
 * stop fields it projects and the renaming of each result object.
 *
 * Datetimes are whole seconds; a Python datetime is always truthy, so a bound
 * counts as given exactly when it is present.
 */
module Timetable {
  import opened Wrappers
  import opened Db
  import ListQuery

  datatype Error =
    | MissingSelection                 // neither line_refs nor both start-time bounds
    | IntervalTooLong                  // the start-time bounds are more than a day apart
    | UnexpectedKeyword(name: string)  // the list engine does not accept a keyword argument
    | MissingAttribute(name: string)   // a result object lacks an attribute
    | MissingId                        // the record's required `id` is None

  /** One day in seconds: the widest start-time window accepted. */
  const MaxInterval := 86400

  /** Python truthiness of an optional text argument. */
  predicate TruthyText(s: Option<string>)
  {
    s.Some? && s.value != ""
  }

  /**
   * The two assertions of `list_`: a selection must be made, by line refs or
   * by both bounds, and two given bounds may be at most a day apart (a
   * reversed window is not refused).
   */
  function CheckRequest(lineRefs: Option<string>, from: Option<int>, to: Option<int>): (r: Option<Error>)
    ensures r == Some(MissingSelection) <==> !TruthyText(lineRefs) && (from.None? || to.None?)
    ensures r == Some(IntervalTooLong) <==>
      (TruthyText(lineRefs) || (from.Some? && to.Some?)) && from.Some? && to.Some? && to.value - from.value > MaxInterval
    ensures r.None? <==>
      (TruthyText(lineRefs) || (from.Some? && to.Some?)) && (from.Some? && to.Some? ==> to.value - from.value <= MaxInterval)
    ensures from.Some? && to.Some? && to.value <= from.value + MaxInterval ==> r.None?
  {
    if !(TruthyText(lineRefs) || (from.Some? && to.Some?)) then Some(MissingSelection)
    else if from.Some? && to.Some? && to.value - from.value > MaxInterval then Some(IntervalTooLong)
    else None
  }

  /** An optional argument as a descriptor value (`None` as NULL). */
  function AsValue<T>(o: Option<T>, wrap: T -> Value): Value
  {
    if o.Some? then wrap(o.value) else Null
  }

  /** The descriptors `list_` passes: both start-time bounds on the ride, then `in` on the route's line ref. */
  function Filters(from: Option<int>, to: Option<int>, lineRefs: Option<string>): (r: seq<ListQuery.Descriptor>)
    ensures |r| == 3
    ensures r[0].kind == "datetime_from" && r[1].kind == "datetime_to" && r[2].kind == "in"
    ensures r[0].field == r[1].field == "gtfs_ride.start_time" && r[2].field == "gtfs_route.line_ref"
    ensures r[0].value == (if from.Some? then Int(from.value) else Null)
    ensures r[1].value == (if to.Some? then Int(to.value) else Null)
    ensures r[2].value == (if lineRefs.Some? then Str(lineRefs.value) else Null)
  {
    [ ListQuery.Descriptor("datetime_from", "gtfs_ride.start_time", [], AsValue(from, (i: int) => Int(i))),
      ListQuery.Descriptor("datetime_to", "gtfs_ride.start_time", [], AsValue(to, (i: int) => Int(i))),
      ListQuery.Descriptor("in", "gtfs_route.line_ref", [], AsValue(lineRefs, (s: string) => Str(s))) ]
  }

  /**
   * The generic engine has no `in` handler: whatever the arguments, walking
   * these descriptors stops at the third with an unknown filter type.
   */
  lemma FiltersFailAtIn(from: Option<int>, to: Option<int>, lineRefs: Option<string>)
    ensures ListQuery.FirstFailure(Filters(from, to, lineRefs)) == Some(ListQuery.UnknownFilterType("in"))
  {
    var fs := Filters(from, to, lineRefs);
    assert ListQuery.KindOf("in").None? by {
      assert "in"[0] != "equals"[0] && "in"[0] != "datetime_from"[0] && "in"[0] != "datetime_to"[0];
      assert "in"[0] != "prefix"[0] && "in"[0] != "date_in_range"[0];
    }
    assert ListQuery.KindOf("datetime_from") == Some(ListQuery.DatetimeFrom);
    assert ListQuery.KindOf("datetime_to") == Some(ListQuery.DatetimeTo) by {
      assert "datetime_to"[0] != "equals"[0];
      assert |"datetime_to"| != |"datetime_from"|;
    }
    assert "datetime_from" != "date_in_range" by { assert "datetime_from"[4] != "date_in_range"[4]; }
    assert "datetime_to" != "date_in_range" by { assert "datetime_to"[4] != "date_in_range"[4]; }
    assert !ListQuery.Fails(fs[0]) && !ListQuery.Fails(fs[1]) && ListQuery.Fails(fs[2]);
    assert fs[1..][1..] == [fs[2]];
    assert ListQuery.FirstFailure([fs[2]]) == Some(ListQuery.UnknownFilterType("in"));
  }

  /**
   * `list_`: the request checks, then the call into the list engine.  The
   * engine modelled here, `get_list_query(db_model, limit, offset, filters,
   * max_limit)`, is an earlier revision than this endpoint and takes none of
   * the keyword arguments passed here, so under that pairing the call fails
   * on the first of them.
   */
  function List(lineRefs: Option<string>, from: Option<int>, to: Option<int>): (r: Result<seq<Row>, Error>)
    ensures r.Err?
    ensures CheckRequest(lineRefs, from, to).Some? ==> r.error == CheckRequest(lineRefs, from, to).value
    ensures CheckRequest(lineRefs, from, to).None? ==> r.error == UnexpectedKeyword("post_session_query_hook")
  {
    var check := CheckRequest(lineRefs, from, to);
    if check.Some? then Err(check.value)
    else Err(UnexpectedKeyword(PassedKeywords[0]))
  }

  /** The keyword arguments `list_` passes, in call order. */
  const PassedKeywords: seq<string> :=
    ["post_session_query_hook", "convert_to_dict", "get_count", "skip_order_by", "get_base_session_query_callback"]

  /** The keyword parameters the engine accepts. */
  const AcceptedKeywords: seq<string> := ["db_model", "limit", "offset", "filters", "max_limit"]

  /** None of the passed keywords is a parameter of the engine. */
  lemma NoPassedKeywordAccepted()
    ensures forall i, j :: 0 <= i < |PassedKeywords| && 0 <= j < |AcceptedKeywords| ==> PassedKeywords[i] != AcceptedKeywords[j]
  {
    forall i, j | 0 <= i < |PassedKeywords| && 0 <= j < |AcceptedKeywords|
      ensures PassedKeywords[i] != AcceptedKeywords[j]
    {
      var p, a := PassedKeywords[i], AcceptedKeywords[j];
      assert p[0] in "pcgs" && a[0] in "dlofm";
    }
  }

  // ---------------------------------------------------------------- projection and renaming

  /** `get_base_session_query`: the stop columns selected, in order. */
  const BaseFields: seq<string> := ["id", "name", "city", "lat", "lon"]

  /** `(attribute read, record key)` in the order `_convert_to_dict` reads them. */
  const Renames: seq<(string, string)> := [
    ("id", "id"), ("name", "name"), ("city", "city"), ("lat", "lat"), ("lon", "lon"),
    ("arrival_time", "planned_arrival_time"), ("line_ref", "gtfs_line_ref"),
    ("start_time", "gtfs_line_start_time"), ("gtfs_ride_id", "gtfs_ride_id")]

  /** The first attribute (in reading order) the object lacks, if any. */
  function FirstMissing(obj: Row, attrs: seq<string>): (r: Option<string>)
    ensures r.None? <==> forall i :: 0 <= i < |attrs| ==> attrs[i] in obj
    ensures r.Some? ==> r.value !in obj && exists i :: 0 <= i < |attrs| && attrs[i] == r.value &&
                                                      forall j :: 0 <= j < i ==> attrs[j] in obj
  {
    if attrs == [] then None
    else if attrs[0] !in obj then Some(attrs[0])
    else
      var rest := FirstMissing(obj, attrs[1..]);
      if rest.Some? then
        ghost var i :| 0 <= i < |attrs[1..]| && attrs[1..][i] == rest.value && forall j :: 0 <= j < i ==> attrs[1..][j] in obj;
        assert attrs[i + 1] == rest.value && forall j :: 0 <= j < i + 1 ==> attrs[j] in obj;
        rest
      else rest
  }

  /** The attributes `_convert_to_dict` reads, in order. */
  const Sources: seq<string> := ["id", "name", "city", "lat", "lon", "arrival_time", "line_ref", "start_time", "gtfs_ride_id"]

  /** The keys of the record, in the order `_convert_to_dict` writes them. */
  const Targets: seq<string> :=
    ["id", "name", "city", "lat", "lon", "planned_arrival_time", "gtfs_line_ref", "gtfs_line_start_time", "gtfs_ride_id"]

  /**
   * `_convert_to_dict`: the record of one result object.  The stop fields
   * and the ride id keep their names; arrival time, line ref and start time
   * are renamed.  A missing attribute or a None `id` fails.
   */
  function ConvertToDict(obj: Row): (r: Result<Row, Error>)
    ensures r.Ok? <==> (forall i :: 0 <= i < |Renames| ==> Renames[i].0 in obj) && "id" in obj && obj["id"] != Null
    ensures r.Ok? ==> forall k :: k in r.value ==> k in Targets
    ensures r.Ok? ==> forall i :: 0 <= i < |Renames| ==> Renames[i].1 in r.value && r.value[Renames[i].1] == obj[Renames[i].0]
  {
    assert forall i :: 0 <= i < |Renames| ==> Sources[i] == Renames[i].0 && Targets[i] == Renames[i].1;
    var missing := FirstMissing(obj, Sources);
    if missing.Some? then Err(MissingAttribute(missing.value))
    else
      assert Sources[0] in obj && Sources[1] in obj && Sources[2] in obj && Sources[3] in obj && Sources[4] in obj;
      assert Sources[5] in obj && Sources[6] in obj && Sources[7] in obj && Sources[8] in obj;
      if obj["id"] == Null then Err(MissingId)
      else
      var d := map["id" := obj["id"], "name" := obj["name"], "city" := obj["city"], "lat" := obj["lat"],
                   "lon" := obj["lon"], "planned_arrival_time" := obj["arrival_time"],
                   "gtfs_line_ref" := obj["line_ref"], "gtfs_line_start_time" := obj["start_time"],
                   "gtfs_ride_id" := obj["gtfs_ride_id"]];
      Ok(d)
  }

  /** No two attributes land on the same key, so every read value survives in the record. */
  lemma RenamesInjective()
    ensures forall i, j :: 0 <= i < j < |Renames| ==> Renames[i].1 != Renames[j].1
  {
    forall i, j | 0 <= i < j < |Renames|
      ensures Renames[i].1 != Renames[j].1
    {
      var a, b := Renames[i].1, Renames[j].1;
      if a[0] == b[0] {
        assert |a| != |b| || a[1] != b[1] || a[|a| - 1] != b[|b| - 1];
      }
    }
  }

  /** The projected stop fields are exactly the ones copied under their own names, first and in order. */
  lemma BaseFieldsKeepTheirNames()
    ensures |BaseFields| <= |Renames|
    ensures forall i :: 0 <= i < |BaseFields| ==> Renames[i] == (BaseFields[i], BaseFields[i])
    ensures forall i :: |BaseFields| <= i < |Renames| ==> Renames[i].0 !in BaseFields
  {
  }

  /** Attributes other than the nine read do not affect the record. */
  lemma ConvertIgnoresOtherAttributes(obj: Row, extra: string, v: Value)
    requires forall i :: 0 <= i < |Renames| ==> Renames[i].0 != extra
    ensures ConvertToDict(obj[extra := v]) == ConvertToDict(obj)
  {
    var obj' := obj[extra := v];
    assert forall i :: 0 <= i < |Renames| ==> (Renames[i].0 in obj' <==> Renames[i].0 in obj);
    assert forall i :: 0 <= i < |Sources| ==> Sources[i] == Renames[i].0 && Sources[i] != extra;
    FirstMissingAgree(obj, obj', Sources);
    if FirstMissing(obj, Sources).None? {
      forall a | a in Sources
        ensures a in obj && obj'[a] == obj[a]
      {
        var k :| 0 <= k < |Sources| && Sources[k] == a;
      }
    }
  }

  /** Objects that agree on which of the attributes they have agree on the first missing one. */
  lemma {:induction false} FirstMissingAgree(a: Row, b: Row, attrs: seq<string>)
    requires forall i :: 0 <= i < |attrs| ==> (attrs[i] in a <==> attrs[i] in b)
    ensures FirstMissing(a, attrs) == FirstMissing(b, attrs)
  {
    if attrs != [] {
      FirstMissingAgree(a, b, attrs[1..]);
    }
  }
}
