# open-bus-stride-api list engines, in Dafny

This project models the query-building core of the Open Bus Stride API, the
HTTP API over the Israeli public-transport database. It covers six parts:

- **Generic list engine** (`routers/common.py`). It threads a list of filter
  descriptors through five named handlers: `equals`, `datetime_from`,
  `datetime_to`, `prefix` and `date_in_range`. It then applies a default
  limit and the offset. It also fetches single items with `.one()`.
- **Raw-SQL adapter** (`common/sql_route.py`). It wraps hand-written SQL
  either in a count or in an order/limit/offset envelope. A non-count call
  must have a limit in (0, 15000]. The session is closed on every way out.
- **Rides aggregation endpoints** (`routers/gtfs_rides_agg.py`). A paged
  list, and a group-by over an allow-listed, comma-separated field list.
- **Agencies list** (`routers/gtfs_agencies.py`). The limit defaults to 100
  and a limit above 100 is refused. The two date bounds become a WHERE clause. Each row
  becomes one record.
- **Route timetable endpoint** (`routers/route_timetable.py`). Its request
  checks, its filter list, its projection and its renaming of result fields.
- **Dependency-pinning script** (`bin/update_stride_db_dependencies.py`). It
  re-points the stride-db lines of the requirements file at one commit.

The database is an oracle held by the session factory (`Db.SessionMaker`):
a function from a statement and its parameters to rows or a driver error.
Every session the factory makes is recorded, with the statements it sent.
`AllClosed()` is the session discipline: each endpoint method requires it
and restores it.

Decisions that are the model's own:

- The generic list engine runs over a table, `seq<Row>`. A row maps
  attribute names to values, and an absent attribute reads as NULL.
- The engine's query is an immutable value: a list of clauses with a limit
  and an offset. `ListQuery.Execute` is the database's side, with SQL's
  three-valued comparisons. NULL, and values of different kinds, never
  compare.
- Two helpers outside the core are parameters: the order/limit/offset
  normaliser of the raw-SQL adapter (`SqlRoute.Normalizer`) and the per-row
  post-processing.

The code as written has three consequences, and the model follows the code:

- **The timetable endpoint and this revision's engine do not fit.** The
  `routers/common.py` of this revision predates `routers/route_timetable.py`.
  It lacks the helpers the endpoint needs when it is imported
  (`router_list`, `param_limit`, `doc_param`). It also lacks the helpers the
  raw-SQL adapter calls (`process_list_query_order_by_limit_offset`,
  `post_process_response_obj`); the model takes those two as parameters.
  Paired with this revision's `get_list_query`, the endpoint's call passes
  keyword arguments the engine does not accept (`post_session_query_hook`,
  `convert_to_dict` and others). It also uses a filter type, `in`, that the
  engine has no handler for. `Timetable.List` states the outcome under this
  pairing: once the endpoint's own checks pass, the call fails.
  `Timetable.FiltersFailAtIn` shows that the filter list alone would fail at
  `in`. This follows from the revision mismatch. It is not known behaviour
  of the deployed endpoint, whose engine is a later one.
- **The prefix value is not escaped.** The prefix filter puts the value into
  the LIKE pattern as it is. A value containing `_` or `%` therefore matches
  more than its prefixes (`ListQuery.PrefixWildcardIsNotEscaped`). Without
  wildcards it is exactly "starts with" (`ListQuery.PrefixPatternIsStartsWith`).
- **The group-by endpoint gets no limit.** It passes no limit and no
  default. So it gets past the adapter's limit check only when the
  normaliser itself supplies a limit (`RidesAgg.GroupByNeedsNormalizerLimit`).

## Model

| member | source | states |
|---|---|---|
| Db.IsoDate | open_bus_stride_api/routers/gtfs_agencies.py:42 | `strftime('%Y-%m-%d')` of a valid date is ten characters: four, two and two digits separated by dashes |
| Db.IsoDateRoundTrip | open_bus_stride_api/routers/gtfs_agencies.py:42 | parsing the rendered date gives the same date back, so distinct dates render differently |
| Db.LimitOrDefault | open_bus_stride_api/routers/common.py:13-14 | a truthy limit is kept; a falsy one becomes the fallback when that is truthy; otherwise the result stays falsy |
| Db.Session.Execute | open_bus_stride_api/common/sql_route.py:18 | sending a statement on an open session logs exactly that statement and returns the database's answer to it |
| Db.Session.Close | open_bus_stride_api/common/sql_route.py:19 | closing leaves the session closed and its log unchanged |
| Db.SessionMaker.Make | open_bus_stride_api/common/sql_route.py:14 | a fresh open session with an empty log, appended to the factory's sessions |
| Text.Split | open_bus_stride_api/routers/gtfs_rides_agg.py:73 | `split(',')` gives at least one piece, no piece contains the separator, and pieces only hold characters of the input |
| Text.JoinSplit | open_bus_stride_api/routers/gtfs_rides_agg.py:73 | joining the pieces with the separator gives back the input |
| Text.SplitJoin | open_bus_stride_api/routers/gtfs_rides_agg.py:73 | splitting separator-free pieces joined by the separator gives back the pieces |
| Text.Strip | open_bus_stride_api/routers/gtfs_rides_agg.py:73 | `strip()`: the contiguous slice of the input left after removing only whitespace from each end; no whitespace at either end; empty exactly when the input is all whitespace; already stripped text is unchanged |
| Text.NatToStringRoundTrip | open_bus_stride_api/common/sql_route.py:33 | the decimal rendering of a number reads back as that number |
| Text.ZeroPadRoundTrip | open_bus_stride_api/routers/gtfs_agencies.py:42 | a zero-padded date field reads back as its number |
| Db.PyStr | open_bus_stride_api/common/sql_route.py:20 | `str(cnt)`: None renders as `None`, text as itself, a non-negative integer as decimal digits that read back as it, a negative one with a leading minus, a valid date as ISO text that parses back to it |
| ListQuery.KindOf | open_bus_stride_api/routers/common.py:12 | handler lookup by type name: a found handler carries that name, and every handler is found by its own name |
| ListQuery.AndWhere | open_bus_stride_api/routers/common.py:24 | adding a filter keeps the bounds and selects exactly the rows the old query and the new clause both select |
| ListQuery.FilterEquals | open_bus_stride_api/routers/common.py:22-25 | a None value leaves the query alone; otherwise the query keeps exactly the rows whose field equals the value |
| ListQuery.FilterDatetimeFrom | open_bus_stride_api/routers/common.py:28-31 | a None value leaves the query alone; otherwise the query keeps exactly the rows whose field is at or after the value |
| ListQuery.FilterDatetimeTo | open_bus_stride_api/routers/common.py:34-37 | a None value leaves the query alone; otherwise the query keeps exactly the rows whose field is at or before the value |
| ListQuery.FilterPrefix | open_bus_stride_api/routers/common.py:40-43 | a None value leaves the query alone; otherwise the query keeps exactly the text fields LIKE the value followed by `%` |
| ListQuery.FilterDateInRange | open_bus_stride_api/routers/common.py:46-50 | fails exactly when a value is given and the field pair does not have two fields; otherwise keeps the rows whose first field ≤ value ≤ second field |
| ListQuery.FirstFailureFindsFailing | open_bus_stride_api/routers/common.py:11-12 | walking the descriptors raises exactly when some descriptor fails on its own |
| ListQuery.ApplyDescriptor | open_bus_stride_api/routers/common.py:12 | one dispatch step fails exactly for an unknown type or a malformed pair, and otherwise adds the descriptor's condition |
| ListQuery.GetListQuery | open_bus_stride_api/routers/common.py:8-19 | fails with the first descriptor's error; otherwise selects exactly the rows meeting every descriptor, with the defaulted limit when truthy and the offset when truthy |
| ListQuery.MatchingAppend | open_bus_stride_api/routers/common.py:10 | filtering keeps table order: filtering a concatenation is concatenating the filtered parts |
| ListQuery.Execute | open_bus_stride_api/routers/common.py:15-18 | a negative bound is refused; otherwise the result is the matching rows after OFFSET, at most LIMIT, in table order |
| ListQuery.PagesConcatenate | open_bus_stride_api/routers/common.py:15-18 | over the model's one fixed table order, two consecutive pages of one size together equal the page of twice that size at the first page's offset |
| ListQuery.GetList | open_bus_stride_api/routers/common.py:4-5 | the answer is exactly `ListPage`: the query the engine builds, run on the table, gives the page of rows meeting every filter |
| ListQuery.Meeting | open_bus_stride_api/routers/common.py:10-12 | the rows meeting every descriptor, in table order, and no others |
| ListQuery.MatchingIsMeeting | open_bus_stride_api/routers/common.py:10-12 | a query selecting exactly the rows meeting the descriptors matches the rows `Meeting` keeps, in the same order |
| ListQuery.ListPage | open_bus_stride_api/routers/common.py:4-19 | an error exactly when a descriptor fails or the defaulted limit or the offset is negative, with the first failure first; otherwise only table rows meeting every filter, never more than the truthy defaulted limit |
| ListQuery.DefaultMaxLimitBoundsList | open_bus_stride_api/routers/common.py:8-14 | with the default `max_limit` of 1000 and a falsy limit, a list has at most 1000 rows |
| ListQuery.GetItem | open_bus_stride_api/routers/common.py:53-55 | succeeds exactly when one row matches, returning it; the 404 error happens exactly when no row matches |
| ListQuery.PrefixPatternIsStartsWith | open_bus_stride_api/routers/common.py:42 | for a value without `%`, `_` or backslash, LIKE value% holds exactly for the texts starting with the value |
| ListQuery.PrefixWildcardIsNotEscaped | open_bus_stride_api/routers/common.py:42 | the value `1_` also selects `12`, which does not start with it |
| SqlRoute.OrderTerms | open_bus_stride_api/common/sql_route.py:31 | one `fieldname direction` term per normalised pair, in order |
| SqlRoute.OrderByClause | open_bus_stride_api/common/sql_route.py:29-31 | the ORDER BY text is empty exactly without an ordering |
| SqlRoute.LimitClause | open_bus_stride_api/common/sql_route.py:32-33 | the LIMIT text is empty exactly without a limit; a non-negative limit reads back from the digits after ` limit ` |
| SqlRoute.OffsetClause | open_bus_stride_api/common/sql_route.py:35-36 | the OFFSET text is empty exactly without an offset; a non-negative offset reads back from the digits after ` offset ` |
| SqlRoute.Wrap | open_bus_stride_api/common/sql_route.py:37-38 | the SQL is left alone exactly when all three clauses are empty, and otherwise becomes the ordered, limited subquery |
| SqlRoute.Plan | open_bus_stride_api/common/sql_route.py:16-38 | a count is always the count envelope; otherwise a statement is sent exactly when the normalised limit is in (0, 15000], and it is then the subquery ending in the limit and offset clauses; the only refusal is the abuse error |
| SqlRoute.CountSql | open_bus_stride_api/common/sql_route.py:17 | the count envelope is `select count(1) from (` and `) as count` around the SQL, which reads back from between them |
| SqlRoute.Deliver | open_bus_stride_api/common/sql_route.py:18-39 | a driver error propagates; a count answers the first cell as text and fails without one; otherwise one post-processed item per row, in order |
| SqlRoute.List | open_bus_stride_api/common/sql_route.py:13-57 | one new session, closed again on every path; it sent nothing on refusal and exactly the planned statement otherwise, and the response is the delivered answer |
| SqlRoute.ListCount | open_bus_stride_api/common/sql_route.py:16-20 | the count branch sends exactly the count envelope, answers the delivered first cell and leaves the session closed |
| SqlRoute.ListRows | open_bus_stride_api/common/sql_route.py:22-41 | the non-count branch sends nothing on the abuse refusal and exactly the planned statement otherwise, answers one post-processed item per row and leaves the session closed |
| ListQuery.WindowsConcatenate | open_bus_stride_api/routers/common.py:15-18 | a window of twice a size is the window of that size followed by the next one |
| RidesAgg.List | open_bus_stride_api/routers/gtfs_rides_agg.py:42-65 | the adapter runs with default limit 1000, the fixed ordering and the two dates as parameters; one new session, the earlier ones kept |
| RidesAgg.ParseGroupBy | open_bus_stride_api/routers/gtfs_rides_agg.py:73 | every parsed name is non-empty, free of commas and already stripped |
| RidesAgg.KeepStrippedPositions | open_bus_stride_api/routers/gtfs_rides_agg.py:73 | the kept pieces are, in increasing position, the stripped form of every piece that does not strip to nothing |
| RidesAgg.ParseGroupByPositions | open_bus_stride_api/routers/gtfs_rides_agg.py:73 | each requested name that is not blank is kept in stripped form, in request order, and nothing else is kept |
| RidesAgg.ParseGroupByJoin | open_bus_stride_api/routers/gtfs_rides_agg.py:73 | non-empty, stripped, comma-free names joined by commas parse back to the same names, in order |
| RidesAgg.BlankGroupByNamesNothing | open_bus_stride_api/routers/gtfs_rides_agg.py:73-74 | a request of only commas and whitespace names no field and so passes the allow-list check |
| RidesAgg.AllowedNameClean | open_bus_stride_api/routers/gtfs_rides_agg.py:74 | every allow-listed name is non-empty, comma-free and stripped |
| RidesAgg.AllowedNamesRoundTrip | open_bus_stride_api/routers/gtfs_rides_agg.py:73-74 | allow-listed names joined by commas parse back to the same names, in order, and pass the allow-list check |
| RidesAgg.FullFieldName | open_bus_stride_api/routers/gtfs_rides_agg.py:78-83 | `gtfs_route_date` becomes `agg.gtfs_route_date`, `day_of_week` the weekday expression, and every other name `rt.` followed by the name; every name other than `day_of_week` ends its expression |
| RidesAgg.FullFieldNameInjective | open_bus_stride_api/routers/gtfs_rides_agg.py:78-83 | different group-by names never stand for the same SQL expression |
| RidesAgg.GroupByFieldsDistinct | open_bus_stride_api/routers/gtfs_rides_agg.py:77-85 | distinct requested names give distinct GROUP BY expressions |
| RidesAgg.BuildFieldLists | open_bus_stride_api/routers/gtfs_rides_agg.py:75-85 | one select entry and one group-by entry per name, in order: the expression labelled with the name, and the bare expression |
| RidesAgg.GroupBySqlReadsBack | open_bus_stride_api/routers/gtfs_rides_agg.py:86-98 | the SQL is the fixed head, the comma-joined select list, the fixed body, the comma-joined group-by list and a line break, and each list reads back from its place |
| RidesAgg.GroupBySqlForReadsBack | open_bus_stride_api/routers/gtfs_rides_agg.py:86-98 | for requested names, the labelled expressions read back right after `select` and the bare expressions right before the final line break |
| RidesAgg.BuildGroupBySql | open_bus_stride_api/routers/gtfs_rides_agg.py:75-98 | the field-list loop and the SQL template give the group-by SQL of the requested names |
| RidesAgg.GroupBy | open_bus_stride_api/routers/gtfs_rides_agg.py:68-103 | a name outside the allow-list is refused before any session is opened; otherwise the group-by SQL goes through the adapter with no limit, offset, count or ordering, the earlier sessions are kept, and the answer is the adapter's response or its error |
| RidesAgg.GroupByNames | open_bus_stride_api/routers/gtfs_rides_agg.py:86-103 | for allow-listed names, the group-by SQL of those names goes through the adapter with no limit, offset, count or ordering; one new session, the earlier ones kept |
| RidesAgg.Adapted | open_bus_stride_api/routers/gtfs_rides_agg.py:103 | the adapter's response is passed on unchanged, and its error is reported as an adapter error |
| RidesAgg.GroupByNeedsNormalizerLimit | open_bus_stride_api/routers/gtfs_rides_agg.py:103 | the group-by statement is sent exactly when the normaliser, asked with no limit, returns one in (0, 15000] |
| Agencies.EffectiveLimit | open_bus_stride_api/routers/gtfs_agencies.py:34-35 | a falsy limit becomes 100, a truthy one is kept |
| Agencies.EffectiveOffset | open_bus_stride_api/routers/gtfs_agencies.py:37-38 | a falsy offset becomes 0, a truthy one is kept |
| Agencies.Conditions | open_bus_stride_api/routers/gtfs_agencies.py:40-44 | one condition per given date, the lower bound first |
| Agencies.WhereClause | open_bus_stride_api/routers/gtfs_agencies.py:45-48 | empty exactly without conditions; otherwise `where ` followed by the conditions, a single condition read back as it is |
| Agencies.BuildWhere | open_bus_stride_api/routers/gtfs_agencies.py:40-48 | the condition loop and the join give the WHERE clause of the given dates |
| Agencies.WhereClauseEmpty | open_bus_stride_api/routers/gtfs_agencies.py:45-48 | the WHERE text is empty exactly when neither date is given |
| Agencies.WhereClauseBoth | open_bus_stride_api/routers/gtfs_agencies.py:40-48 | with both dates the clause is `where date >= 'from' and date <= 'to'` |
| Agencies.WhereClauseFromReadsBack | open_bus_stride_api/routers/gtfs_agencies.py:42-46 | the lower date is found right after `where date >= '` and reads back as that date |
| Agencies.AgencySql | open_bus_stride_api/routers/gtfs_agencies.py:49-56 | the statement is the fixed head, the WHERE text and the fixed grouped, ordered, paged tail, and the WHERE text reads back from between them |
| Agencies.ToAgency | open_bus_stride_api/routers/gtfs_agencies.py:57-61 | a row shorter than three columns fails; a record holds exactly the first three columns |
| Agencies.ToAgencies | open_bus_stride_api/routers/gtfs_agencies.py:49-61 | succeeds exactly when every row converts, with one record per row, in order |
| Agencies.ToAgenciesFirstError | open_bus_stride_api/routers/gtfs_agencies.py:49-61 | a failure is the error of the first row that does not convert |
| Agencies.ConvertRows | open_bus_stride_api/routers/gtfs_agencies.py:49-62 | the row loop computes the records of all rows, or the first row's failure |
| Agencies.List | open_bus_stride_api/routers/gtfs_agencies.py:28-62 | one new session, closed on every path, the earlier ones kept; a limit above 100 sends nothing; otherwise the dated statement with the defaulted limit and offset, and the records of its rows |
| Timetable.CheckRequest | open_bus_stride_api/routers/route_timetable.py:69-71 | refused without line refs and without both bounds; refused when both bounds are more than 86400 s apart; accepted otherwise, a reversed window included |
| Timetable.Filters | open_bus_stride_api/routers/route_timetable.py:74-78 | start-time from and to on the ride, holding the two bounds in that order, then `in` on the route's line ref holding the line refs; a missing argument is NULL |
| Timetable.FiltersFailAtIn | open_bus_stride_api/routers/route_timetable.py:74-78 | the engine's dispatch over these descriptors stops at `in` as an unknown filter type |
| Timetable.List | open_bus_stride_api/routers/route_timetable.py:62-84 | paired with this revision's `get_list_query`, always fails: with the request check's error, or else on the first keyword argument the engine does not accept |
| Timetable.NoPassedKeywordAccepted | open_bus_stride_api/routers/route_timetable.py:79-83 | none of the keyword arguments passed is a parameter of `get_list_query` |
| Timetable.FirstMissing | open_bus_stride_api/routers/route_timetable.py:56-59 | no attribute is missing exactly when all are present; otherwise the first absent one in reading order |
| Timetable.ConvertToDict | open_bus_stride_api/routers/route_timetable.py:55-59 | succeeds exactly when all nine attributes are present and `id` is not None; then each record key holds the value of its attribute, and there are no other keys |
| Timetable.RenamesInjective | open_bus_stride_api/routers/route_timetable.py:56-59 | no two attributes are written to the same key |
| Timetable.ConvertIgnoresOtherAttributes | open_bus_stride_api/routers/route_timetable.py:55-59 | attributes other than the nine read do not change the record |
| Timetable.BaseFieldsKeepTheirNames | open_bus_stride_api/routers/route_timetable.py:34-37 | the projected stop fields are the first five attributes read, copied under their own names |
| Requirements.RewriteLine | bin/update_stride_db_dependencies.py:10-14 | a raw-requirements line points at the commit's requirements file; an archive line points at the commit's zip; other lines are unchanged |
| Requirements.PrefixesExclusive | bin/update_stride_db_dependencies.py:10-13 | no line has both prefixes |
| Requirements.RewriteLineIdempotent | bin/update_stride_db_dependencies.py:10-14 | rewriting a rewritten line with the same commit changes nothing |
| Requirements.CommitReadsBack | bin/update_stride_db_dependencies.py:11-13 | the commit can be read back from a rewritten line |
| Requirements.Rewritten | bin/update_stride_db_dependencies.py:7-14 | the new line list has one line per old line, each rewritten |
| Requirements.RewrittenIdempotent | bin/update_stride_db_dependencies.py:7-14 | rewriting the line list twice with the same commit gives the line list of one rewrite |
| Requirements.RewriteLines | bin/update_stride_db_dependencies.py:7-14 | the loop produces as many lines as it read, each the rewrite of its counterpart |
| Requirements.ImageTag | bin/update_stride_db_dependencies.py:18 | the tag is the image repository followed by the commit, which reads back from it |

## Left out

- The ORM: SQLAlchemy sessions, mapped classes, joins and `__dict__`. The generic engine works on attribute maps over one table, and `__dict__` is the row itself.
- Database collation: text compares by code point. Date and integer values compare naturally; integers stand for datetimes in whole seconds.
- LIKE on a non-text column is treated as never matching.
- The LIKE escape character is assumed to be the backslash, the database default.
- `process_list_query_order_by_limit_offset` and `post_process_response_obj` are not part of this model. They are parameters of `SqlRoute.List`.
- `SqlRoute.List`: `int(limit)` is not modelled; limits are already integers.
- `SqlRoute.List`: the streaming branch in comments is not modelled.
- Request parsing, pydantic coercion and response serialisation by FastAPI are not modelled. `Agencies.ToAgency` accepts values of the declared kind only and does not coerce.
- `Timetable.ConvertToDict` checks only that `id` is not None, not the kinds of the optional fields.
- `Text.Strip` knows ASCII whitespace, the four information separators, NEL and no-break space. It does not know the other Unicode spaces Python's `str.strip()` removes.
- `Db.IsoDate` pads the year to four digits. Python's `strftime('%Y')` is platform-dependent below year 1000.
- `Db.ValidDate` bounds the day by 31 for every month.
- `Db.PyStr` renders an out-of-range date as empty text; valid dates only reach it through the endpoints.
- The file reads and writes and the `git add` call of the dependency script are I/O.
- The Python `dedent` is applied by hand: the SQL constants are the dedented texts.
- Whether the database refuses the statement is decided by the oracle; a negative limit in the agencies list, which passes the cap, is sent as it is.
- `Requirements.RewrittenIdempotent` is about the line list. The script re-reads the file, so a commit containing a line break would split a rewritten line and a second run would differ.
- `ListQuery.GetList` and `ListQuery.GetListQuery` take `max_limit` as an argument; the Python default of 1000 is `ListQuery.DefaultMaxLimit`.
- `ListQuery.Execute` assumes one fixed row order shared by every query. SQL promises no order without ORDER BY, and `get_list_query` sets none, so `ListQuery.PagesConcatenate` holds of the model's database only.
- Concurrency between requests and the database connection pool are not modelled.
