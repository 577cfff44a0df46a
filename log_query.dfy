/** The paged log query: the WHERE clause and parameters built from the optional filters,
    the page offset, and the count that is only asked for on request. The two SQL commands
    are run by the database, so their results (the count and the rows of the page) are
    inputs. */
module LogQuery {
  import opened Wrappers
  import opened Calendar
  import opened Text

  /** The filters a query can apply, in the order the query considers them. */
  datatype Criterion = LevelFilter | StartFilter | EndFilter | KeywordFilter

  /** The SQL condition a criterion adds. */
  function ConditionText(c: Criterion): string {
    match c
    case LevelFilter => "Level = @level"
    case StartFilter => "Timestamp >= @startTime"
    case EndFilter => "Timestamp <= @endTime"
    case KeywordFilter => "Message LIKE @keyword"
  }

  /** A criterion's position in the order the query considers them. */
  function Rank(c: Criterion): nat {
    match c
    case LevelFilter => 0
    case StartFilter => 1
    case EndFilter => 2
    case KeywordFilter => 3
  }

  datatype ParameterValue = TextValue(text: string) | TimeValue(time: Time) | NumberValue(number: int)
  datatype SqlParameter = SqlParameter(name: string, value: ParameterValue)

  /** The optional filters; a null level or keyword is the empty string. */
  datatype LogFilter = LogFilter(level: string, startTime: Option<Time>, endTime: Option<Time>, keyword: string)

  /** The parameter a criterion binds. */
  function ParameterOf(c: Criterion, filter: LogFilter): SqlParameter {
    match c
    case LevelFilter => SqlParameter("@level", TextValue(filter.level))
    case StartFilter => SqlParameter("@startTime", TimeValue(filter.startTime.GetOr(0)))
    case EndFilter => SqlParameter("@endTime", TimeValue(filter.endTime.GetOr(0)))
    case KeywordFilter => SqlParameter("@keyword", TextValue("%" + filter.keyword + "%"))
  }

  /** Each parameter is the one its criterion binds, and the criteria come in the order the
      query considers them. */
  predicate WellFormed(criteria: seq<Criterion>, parameters: seq<SqlParameter>, filter: LogFilter) {
    |criteria| == |parameters|
    && (forall i :: 0 <= i < |criteria| ==> parameters[i] == ParameterOf(criteria[i], filter))
    && (forall i, j :: 0 <= i < j < |criteria| ==> Rank(criteria[i]) < Rank(criteria[j]))
  }

  /** Appends a criterion that comes after all present ones, with its parameter. */
  method Add(criteria: seq<Criterion>, parameters: seq<SqlParameter>, c: Criterion, filter: LogFilter)
    returns (criteria': seq<Criterion>, parameters': seq<SqlParameter>)
    requires WellFormed(criteria, parameters, filter)
    requires forall x :: x in criteria ==> Rank(x) < Rank(c)
    ensures WellFormed(criteria', parameters', filter)
    ensures |criteria'| == |criteria| + 1
    ensures criteria' == criteria + [c]
  {
    criteria' := criteria + [c];
    parameters' := parameters + [ParameterOf(c, filter)];
  }

  /** The criteria of the filters that are present, in the order the query considers them:
      an empty level or keyword counts as absent. */
  function PresentCriteria(filter: LogFilter): (criteria: seq<Criterion>)
    ensures |criteria| <= 4
    ensures forall i, j :: 0 <= i < j < |criteria| ==> Rank(criteria[i]) < Rank(criteria[j])
    ensures LevelFilter in criteria <==> filter.level != ""
    ensures StartFilter in criteria <==> filter.startTime.Some?
    ensures EndFilter in criteria <==> filter.endTime.Some?
    ensures KeywordFilter in criteria <==> filter.keyword != ""
  {
    (if filter.level != "" then [LevelFilter] else [])
    + (if filter.startTime.Some? then [StartFilter] else [])
    + (if filter.endTime.Some? then [EndFilter] else [])
    + (if filter.keyword != "" then [KeywordFilter] else [])
  }

  /** The parameters the criteria bind, one each, in order. */
  function ParametersOf(criteria: seq<Criterion>, filter: LogFilter): (parameters: seq<SqlParameter>)
    ensures |parameters| == |criteria|
  {
    seq(|criteria|, i requires 0 <= i < |criteria| => ParameterOf(criteria[i], filter))
  }

  /** Well-formed parameters are exactly the ones the criteria bind. */
  lemma WellFormedParameters(criteria: seq<Criterion>, parameters: seq<SqlParameter>, filter: LogFilter)
    requires WellFormed(criteria, parameters, filter)
    ensures parameters == ParametersOf(criteria, filter)
  {
  }

  /** No filter parameter takes the name of a paging parameter. */
  lemma FilterParameterNames(criteria: seq<Criterion>, filter: LogFilter)
    ensures forall p :: p in ParametersOf(criteria, filter) ==> p.name != "@pageSize" && p.name != "@offset"
  {
  }

  /** Adds one criterion, with its parameter, for each filter that is present. The condition
      list of the query is the criteria's `ConditionText`s. */
  method BuildConditions(filter: LogFilter) returns (criteria: seq<Criterion>, parameters: seq<SqlParameter>)
    ensures criteria == PresentCriteria(filter) && parameters == ParametersOf(criteria, filter)
    ensures WellFormed(criteria, parameters, filter) && |criteria| <= 4
    ensures LevelFilter in criteria <==> filter.level != ""
    ensures StartFilter in criteria <==> filter.startTime.Some?
    ensures EndFilter in criteria <==> filter.endTime.Some?
    ensures KeywordFilter in criteria <==> filter.keyword != ""
  {
    criteria, parameters := [], [];
    if filter.level != "" {
      criteria, parameters := Add(criteria, parameters, LevelFilter, filter);
    }
    ghost var upToLevel := criteria;
    if filter.startTime.Some? {
      criteria, parameters := Add(criteria, parameters, StartFilter, filter);
    }
    ghost var upToStart := criteria;
    if filter.endTime.Some? {
      criteria, parameters := Add(criteria, parameters, EndFilter, filter);
    }
    ghost var upToEnd := criteria;
    if filter.keyword != "" {
      criteria, parameters := Add(criteria, parameters, KeywordFilter, filter);
    }
    assert upToLevel == (if filter.level != "" then [LevelFilter] else []);
    assert upToStart == upToLevel + (if filter.startTime.Some? then [StartFilter] else []);
    assert upToEnd == upToStart + (if filter.endTime.Some? then [EndFilter] else []);
    assert criteria == upToEnd + (if filter.keyword != "" then [KeywordFilter] else []);
    WellFormedParameters(criteria, parameters, filter);
  }

  function Conditions(criteria: seq<Criterion>): (conditions: seq<string>)
    ensures |conditions| == |criteria|
  {
    seq(|criteria|, i requires 0 <= i < |criteria| => ConditionText(criteria[i]))
  }

  /** The clause the conditions make: nothing when there are none. */
  function WhereClause(conditions: seq<string>): (clause: string)
    ensures clause == "" <==> conditions == []
    ensures conditions != [] ==> |clause| >= 6 && clause[..6] == "WHERE " && clause[6..] == Join(" AND ", conditions)
  {
    if |conditions| > 0 then "WHERE " + Join(" AND ", conditions) else ""
  }

  const Int32Modulus := 0x1_0000_0000
  const Int32Min := -0x8000_0000
  const Int32Max := 0x7FFF_FFFF

  predicate IsInt32(n: int) {
    Int32Min <= n <= Int32Max
  }

  /** `pageIndex * pageSize` in unchecked 32-bit arithmetic: the true product when it fits,
      otherwise the product wrapped into the 32-bit range. */
  function Offset(pageIndex: int, pageSize: int): (offset: int)
    ensures IsInt32(offset)
    ensures (offset - pageIndex * pageSize) % Int32Modulus == 0
    ensures IsInt32(pageIndex * pageSize) ==> offset == pageIndex * pageSize
  {
    (pageIndex * pageSize - Int32Min) % Int32Modulus + Int32Min
  }

  datatype LogItem = LogItem(id: int, timestamp: Time, level: string, message: string,
                             exception: Option<string>, correlationId: Option<string>,
                             properties: Option<string>)

  datatype PagedData<T> = PagedData(items: seq<T>, total: int, pageIndex: int, pageSize: int)

  /** What the query sends: the count command (only when a total is asked for) and the page
      command with its parameters. */
  datatype QueryPlan = QueryPlan(countSql: Option<string>, dataSql: string, dataParameters: seq<SqlParameter>)

  function CountSql(where: string): string {
    "SELECT COUNT(*) FROM Logs " + where
  }

  function DataSql(where: string): string {
    "SELECT Id, Timestamp, Level, Message, Exception, CorrelationId, Properties FROM Logs "
    + where + " ORDER BY Timestamp DESC LIMIT @pageSize OFFSET @offset"
  }

  /** The message of the `OverflowException` that `Convert.ToInt32` throws for a 64-bit value
      outside the 32-bit range. */
  const Int32OverflowMessage := "Value was either too large or too small for an Int32."

  /** One page of logs. `countResult` is what the count command answers (a 64-bit `COUNT(*)`)
      and `rows` the rows the page command reads, in the order it reads them. A count that does
      not fit in 32 bits makes the conversion throw before the page command runs. */
  method GetLogs(pageIndex: int, pageSize: int, filter: LogFilter, countTotal: bool,
                 countResult: int, rows: seq<LogItem>) returns (plan: QueryPlan, page: Result<PagedData<LogItem>>)
    ensures page.Err? <==> countTotal && !IsInt32(countResult)
    ensures page.Err? ==> page.error == Int32OverflowMessage
    ensures page.Ok? ==> page.value.total == if countTotal then countResult else 0
    ensures page.Ok? ==> page.value.items == rows && page.value.pageIndex == pageIndex && page.value.pageSize == pageSize
    ensures plan.countSql.Some? <==> countTotal
    // the commands carry the WHERE clause of the present filters, and the page command binds
    // their parameters, then the page size and the offset
    ensures var criteria := PresentCriteria(filter);
            var where := WhereClause(Conditions(criteria));
            plan.dataSql == DataSql(where)
            && plan.countSql == (if countTotal then Some(CountSql(where)) else None)
            && plan.dataParameters == ParametersOf(criteria, filter)
                 + [SqlParameter("@pageSize", NumberValue(pageSize)), SqlParameter("@offset", NumberValue(Offset(pageIndex, pageSize)))]
    ensures var n := |plan.dataParameters|;
            n >= 2 && plan.dataParameters[n - 2..] ==
              [SqlParameter("@pageSize", NumberValue(pageSize)), SqlParameter("@offset", NumberValue(Offset(pageIndex, pageSize)))]
    ensures forall i :: 0 <= i < |plan.dataParameters| - 2 ==>
              (plan.dataParameters[i].name != "@pageSize" && plan.dataParameters[i].name != "@offset")
  {
    var criteria, parameters := BuildConditions(filter);
    FilterParameterNames(criteria, filter);
    var where := WhereClause(Conditions(criteria));
    var total := 0;
    var countSql := None;
    var offset := Offset(pageIndex, pageSize);
    var dataParameters := parameters + [SqlParameter("@pageSize", NumberValue(pageSize)), SqlParameter("@offset", NumberValue(offset))];
    if countTotal {
      countSql := Some(CountSql(where));
      total := countResult;
    }
    plan := QueryPlan(countSql, DataSql(where), dataParameters);
    if !IsInt32(total) {
      page := Err(Int32OverflowMessage);
    } else {
      page := Ok(PagedData(rows, total, pageIndex, pageSize));
    }
  }
}
