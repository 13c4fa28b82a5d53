/**
 * The request the `getVisits` thunk builds (src/redux/slices/actions/getVisits.ts):
 * the month range of `helperDate`, the ordered filter-condition list, the fixed
 * page/limit, the bearer header, and how the response settles the thunk.
 */
module VisitQuery {

  import opened Wrappers
  import opened Text
  import opened Calendar

  /** First and last day of a month as `YYYY-MM-DD` text. */
  datatype MonthRange = MonthRange(firstDay: string, lastDay: string)

  /**
   * The month the constructor calls of `getMonthRange` land in: the date's own month,
   * except that a year 0..99 is read as 1900..1999.
   */
  function RequestedMonth(d: Date): (ym: YearMonth)
    ensures ym.month == d.month
    ensures !IsTwoDigitYear(d.year) ==> ym.year == d.year
    ensures IsTwoDigitYear(d.year) ==> ym.year == d.year + 1900
  {
    YearMonth(FullYear(d.year), d.month)
  }

  /** `new Date(year, month, 1)`: the first day of the requested month. */
  function FirstDayOfMonth(d: Date): (first: Date)
    requires ValidDate(d)
    ensures first == Date(RequestedMonth(d).year, d.month, 1)
    ensures !IsTwoDigitYear(d.year) ==> first == Date(d.year, d.month, 1)
  {
    MakeValidDate(Date(d.year, d.month, 1));
    MakeLocalDate(d.year, d.month - 1, 1)
  }

  /** `new Date(year, month + 1, 0)`: the last day of the requested month, never in the next year. */
  function LastDayOfMonth(d: Date): (last: Date)
    requires ValidDate(d)
    ensures last == Date(RequestedMonth(d).year, d.month, DaysInMonth(RequestedMonth(d).year, d.month))
    ensures !IsTwoDigitYear(d.year) ==> last == Date(d.year, d.month, DaysInMonth(d.year, d.month))
  {
    DayZeroIsLastDay(d.year, d.month);
    MakeLocalDate(d.year, d.month - 1 + 1, 0)
  }

  /** `getMonthRange`: both ends of the requested month, formatted. */
  function GetMonthRange(d: Date): (r: MonthRange)
    requires ValidDate(d)
    ensures r.firstDay == FormatLocalDate(Date(RequestedMonth(d).year, d.month, 1))
    ensures r.lastDay == FormatLocalDate(Date(RequestedMonth(d).year, d.month, DaysInMonth(RequestedMonth(d).year, d.month)))
  {
    MonthRange(FormatLocalDate(FirstDayOfMonth(d)), FormatLocalDate(LastDayOfMonth(d)))
  }

  /**
   * Every day of the requested month formats between the two ends of its range; for a
   * year outside 0..99 that is every day of the date's own month.
   */
  lemma MonthRangeBracketsMonth(d: Date, day: int)
    requires ValidDate(d)
    requires 1 <= day <= DaysInMonth(RequestedMonth(d).year, d.month)
    ensures LexLe(GetMonthRange(d).firstDay, FormatLocalDate(Date(RequestedMonth(d).year, d.month, day)))
    ensures LexLe(FormatLocalDate(Date(RequestedMonth(d).year, d.month, day)), GetMonthRange(d).lastDay)
  {
    var y := RequestedMonth(d).year;
    FormatMonotoneInMonth(y, d.month, 1, day);
    FormatMonotoneInMonth(y, d.month, day, DaysInMonth(y, d.month));
  }

  /** Both ends of the range name the requested month, and the first comes first. */
  lemma MonthRangeParsesBack(d: Date)
    requires ValidDate(d)
    ensures ParseLocalDate(GetMonthRange(d).firstDay) == Some(Date(RequestedMonth(d).year, d.month, 1))
    ensures ParseLocalDate(GetMonthRange(d).lastDay)
         == Some(Date(RequestedMonth(d).year, d.month, DaysInMonth(RequestedMonth(d).year, d.month)))
    ensures LexLe(GetMonthRange(d).firstDay, GetMonthRange(d).lastDay)
  {
    var y := RequestedMonth(d).year;
    FormatParseRoundTrip(Date(y, d.month, 1));
    FormatParseRoundTrip(Date(y, d.month, DaysInMonth(y, d.month)));
    MonthRangeBracketsMonth(d, 1);
  }

  /** The operand of a condition (src/interfaces/FilterCondition.ts). */
  datatype CondValue = TextValue(text: string) | NumberValue(number: real) | BoolValue(flag: bool) | NullValue

  /** One server-side filter predicate (src/interfaces/FilterCondition.ts). */
  datatype FilterCondition = FilterCondition(
    column: string,
    objectId: string,
    operation: string,
    joinKey: Option<seq<string>>,
    value: CondValue,
    condType: string,
    error: bool,
    helperText: string)

  /** The two filters the thunk reads from the store; null and undefined are both None. */
  datatype VisitFilters = VisitFilters(helperDate: Option<Date>, companyName: Option<string>)

  predicate ValidFilters(f: VisitFilters) {
    f.helperDate.Some? ==> ValidDate(f.helperDate.value)
  }

  /** The UI-validation part of a condition is at its defaults: no error, empty helper text. */
  predicate UntouchedByForm(c: FilterCondition) {
    !c.error && c.helperText == ""
  }

  const DeadlineColumn := "data_limita"
  const CompanyColumn := "companie_denumire"
  const AfterOp := "dupa"
  const BeforeOp := "inainte de"
  const ContainsOp := "contine"

  function DeadlineCondition(operation: string, day: string): FilterCondition {
    FilterCondition(DeadlineColumn, DeadlineColumn, operation, None, TextValue(day), "date", false, "")
  }

  function CompanyCondition(name: string): FilterCondition {
    FilterCondition(CompanyColumn, CompanyColumn, ContainsOp, Some(["Companie"]), TextValue(name), "text", false, "")
  }

  /** The two deadline conditions pushed when `helperDate` is set. */
  function MonthConditions(d: Date): (cs: seq<FilterCondition>)
    requires ValidDate(d)
    ensures |cs| == 2
    ensures cs[0] == DeadlineCondition(AfterOp, GetMonthRange(d).firstDay)
    ensures cs[1] == DeadlineCondition(BeforeOp, GetMonthRange(d).lastDay)
  {
    var range := GetMonthRange(d);
    [DeadlineCondition(AfterOp, range.firstDay), DeadlineCondition(BeforeOp, range.lastDay)]
  }

  /** The condition list, in push order: the month range pair, then the company filter. */
  function BuildConditions(f: VisitFilters): (cs: seq<FilterCondition>)
    requires ValidFilters(f)
    ensures |cs| == (if f.helperDate.Some? then 2 else 0) + (if f.companyName.Some? then 1 else 0)
    ensures cs == [] <==> f.helperDate.None? && f.companyName.None?
    ensures forall i :: 0 <= i < |cs| ==> UntouchedByForm(cs[i])
    ensures f.helperDate.Some? ==> cs[..2] == MonthConditions(f.helperDate.value)
    ensures f.companyName.Some? ==> cs[|cs| - 1] == CompanyCondition(f.companyName.value)
  {
    var dateConds := if f.helperDate.Some? then MonthConditions(f.helperDate.value) else [];
    var companyConds := if f.companyName.Some? then [CompanyCondition(f.companyName.value)] else [];
    assert forall i :: 0 <= i < |dateConds| ==> UntouchedByForm(dateConds[i]);
    assert forall i :: 0 <= i < |companyConds| ==> UntouchedByForm(companyConds[i]);
    var cs := dateConds + companyConds;
    assert f.helperDate.Some? ==> cs[..2] == dateConds;
    cs
  }

  /** What a reader of the condition list can tell about the filters: the month and the company text. */
  datatype FilterSummary = FilterSummary(month: Option<YearMonth>, companyName: Option<string>)

  /** The summary the filters ought to produce: the requested month of `helperDate`, and `companyName`. */
  function SummaryOf(f: VisitFilters): FilterSummary {
    FilterSummary(if f.helperDate.Some? then Some(RequestedMonth(f.helperDate.value)) else None, f.companyName)
  }

  /** The month a leading pair of deadline conditions covers, when it is a whole month. */
  function ReadMonthPair(a: FilterCondition, b: FilterCondition): Option<YearMonth>
  {
    if a.column == DeadlineColumn && a.operation == AfterOp && a.value.TextValue?
       && b.column == DeadlineColumn && b.operation == BeforeOp && b.value.TextValue?
    then
      match (ParseLocalDate(a.value.text), ParseLocalDate(b.value.text))
      case (Some(first), Some(last)) =>
        if first.day == 1 && last.year == first.year && last.month == first.month
           && last.day == DaysInMonth(first.year, first.month)
        then Some(YearMonth(first.year, first.month)) else None
      case _ => None
    else None
  }

  /** Reads a condition list back into the filters it encodes. */
  function ReadConditions(cs: seq<FilterCondition>): FilterSummary
  {
    var month := if |cs| >= 2 then ReadMonthPair(cs[0], cs[1]) else None;
    var rest := if month.Some? then cs[2..] else cs;
    var company :=
      if |rest| == 1 && rest[0].column == CompanyColumn && rest[0].operation == ContainsOp && rest[0].value.TextValue?
      then Some(rest[0].value.text) else None;
    FilterSummary(month, company)
  }

  lemma ReadMonthConditions(d: Date)
    requires ValidDate(d)
    ensures ReadMonthPair(MonthConditions(d)[0], MonthConditions(d)[1]) == Some(RequestedMonth(d))
    ensures !IsTwoDigitYear(d.year) ==> ReadMonthPair(MonthConditions(d)[0], MonthConditions(d)[1]) == Some(YearMonth(d.year, d.month))
  {
    MonthRangeParsesBack(d);
  }

  /**
   * The condition list loses nothing the server needs: the requested month of `helperDate`
   * and the exact `companyName` text (including "") can be read back from it. For a year
   * outside 0..99 the month read back is the date's own.
   */
  lemma ConditionsRoundTrip(f: VisitFilters)
    requires ValidFilters(f)
    ensures ReadConditions(BuildConditions(f)) == SummaryOf(f)
    ensures f.helperDate.Some? && !IsTwoDigitYear(f.helperDate.value.year) ==>
      ReadConditions(BuildConditions(f)).month == Some(YearMonth(f.helperDate.value.year, f.helperDate.value.month))
  {
    var cs := BuildConditions(f);
    if f.helperDate.Some? {
      ReadMonthConditions(f.helperDate.value);
      assert cs[0] == MonthConditions(f.helperDate.value)[0];
      assert cs[1] == MonthConditions(f.helperDate.value)[1];
    }
  }

  /** Rows per page the thunk requests. */
  const PageSize := 20

  /** The GET request of `getVisits`. */
  datatype VisitsRequest = VisitsRequest(
    host: string,
    path: string,
    page: int,
    limit: int,
    conditions: seq<FilterCondition>,
    authorization: string)

  /**
   * The bearer header: the token text interpolated into a template, so a missing
   * current user yields the literal text "undefined".
   */
  function BearerHeader(token: Option<string>): (h: string)
    ensures |h| >= 7
    ensures token.Some? ==> h[7..] == token.value
    ensures token.None? ==> h == "Bearer undefined"
    ensures h[..7] == "Bearer "
  {
    "Bearer " + token.GetOr("undefined")
  }

  /** Builds the request from the configured host, the session token and the store's filters. */
  function BuildVisitsRequest(host: string, token: Option<string>, f: VisitFilters): (r: VisitsRequest)
    requires ValidFilters(f)
    ensures r.page == 1 && r.limit == PageSize
    ensures r.host == host && r.path == "/vizite/pagination"
    ensures r.authorization == BearerHeader(token)
    ensures r.conditions == BuildConditions(f)
    ensures ReadConditions(r.conditions) == SummaryOf(f)
  {
    ConditionsRoundTrip(f);
    VisitsRequest(host, "/vizite/pagination", 1, PageSize, BuildConditions(f), BearerHeader(token))
  }

  /** How the thunk settles: fulfilled with the response body as is, or rejected with a fixed message. */
  datatype ThunkOutcome<D> = Fulfilled(data: D) | Rejected(message: string)

  const VisitsErrorMessage := "S-a produs o eroare la preluarea vizitelor"

  /** The body is passed on with no look at any status field it carries. */
  function SettleVisits<D, E>(response: Result<D, E>): (o: ThunkOutcome<D>)
    ensures response.Success? <==> o.Fulfilled?
    ensures response.Success? ==> o.data == response.value
    ensures response.Failure? ==> o.message == VisitsErrorMessage
  {
    match response
    case Success(body) => Fulfilled(body)
    case Failure(_) => Rejected(VisitsErrorMessage)
  }
}
