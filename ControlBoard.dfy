/** The server actions of the control board: resolving a Hijri week bucket to a day range,
    the date-filtered requests built from it, and the validation and error reporting of
    `deleteUserActivity`. Requests are modelled as the URL path and query they would fetch. */
module ControlBoard {
  import opened Common
  import opened Strings
  import opened Calendar

  /** A range of Hijri days of one month, both ends included. */
  datatype DayRange = DayRange(startDay: int, endDay: int)

  predicate InRange(d: int, r: DayRange) { r.startDay <= d <= r.endDay }

  datatype QueryError = NoAccessToken | InvalidWeekIndex

  /** The message of the error thrown by the action for each failure. */
  function QueryErrorMessage(e: QueryError): string
  {
    match e
    case NoAccessToken => "No access token found in cookies"
    case InvalidWeekIndex => "Invalid weekIndex"
  }

  /** The week bucket of a Hijri month: weeks 1 to 4 are fixed 7-day blocks, week 5 is day 29
      alone when the month has 29 days and days 29 and 30 otherwise; any other index fails. */
  function WeekDayRange(weekIndex: int, monthDays: int): (r: Result<DayRange, QueryError>)
    ensures r.Ok? <==> 1 <= weekIndex <= 5
    ensures r.Err? ==> r.error == InvalidWeekIndex
    ensures r.Ok? ==> 1 <= r.value.startDay <= r.value.endDay <= 30
    ensures r.Ok? && weekIndex <= 4 ==> r.value.endDay - r.value.startDay == 6 && r.value.endDay == 7 * weekIndex
    ensures weekIndex == 5 ==> r.value.startDay == 29 && (r.value.endDay == 29 <==> monthDays == 29)
  {
    if 1 <= weekIndex <= 4 then Ok(DayRange((weekIndex - 1) * 7 + 1, weekIndex * 7))
    else if weekIndex == 5 then Ok(DayRange(29, if monthDays == 29 then 29 else 30))
    else Err(InvalidWeekIndex)
  }

  /** Each week starts the day after the previous one ends, so weeks 1 to 4 tile days 1 to 28
      and week 5 begins on day 29. */
  lemma WeeksAreConsecutive(weekIndex: int, monthDays: int)
    requires 1 <= weekIndex <= 4
    ensures WeekDayRange(weekIndex + 1, monthDays).value.startDay
            == WeekDayRange(weekIndex, monthDays).value.endDay + 1
  {
  }

  /** The week that holds day `d` of the month. */
  function WeekOfDay(d: int): int
  {
    if d <= 28 then (d - 1) / 7 + 1 else 5
  }

  /** In a 29- or 30-day month the five weeks partition the month: every day of the month is
      in exactly one week, the one WeekOfDay names, and no week holds a day outside it. */
  lemma {:induction false} WeeksPartitionMonth(d: int, weekIndex: int, monthDays: int)
    requires monthDays == 29 || monthDays == 30
    requires 1 <= weekIndex <= 5
    ensures InRange(d, WeekDayRange(weekIndex, monthDays).value)
            <==> 1 <= d <= monthDays && weekIndex == WeekOfDay(d)
  {
    var r := WeekDayRange(weekIndex, monthDays).value;
    if weekIndex <= 4 {
      if InRange(d, r) {
        assert (d - 1) / 7 == weekIndex - 1 by {
          assert 7 * (weekIndex - 1) <= d - 1 < 7 * weekIndex;
          DivBetween(d - 1, weekIndex - 1);
        }
      }
      if 1 <= d <= monthDays && weekIndex == WeekOfDay(d) {
        assert d <= 28;
        var q := (d - 1) / 7;
        assert 7 * q <= d - 1 < 7 * q + 7;
      }
    }
  }

  lemma DivBetween(x: int, q: int)
    requires 7 * q <= x < 7 * q + 7
    ensures x / 7 == q
  {
  }

  /** The query of a (year, month, week) bucket: both ends converted to Gregorian dates and
      formatted for the backend. The three copies of this logic in `getUsers`,
      `getUserActivities` and `getPoints` are this one function. */
  function WeekQuery(year: int, month: int, weekIndex: int, toGregorian: Converter,
                     monthDays: MonthLength): (r: Result<string, QueryError>)
    ensures r.Ok? <==> 1 <= weekIndex <= 5
    ensures r.Err? ==> r.error == InvalidWeekIndex
  {
    match WeekDayRange(weekIndex, monthDays(year, month))
    case Err(e) => Err(e)
    case Ok(range) =>
      var start := FormatIsoDate(toGregorian(HijriDate(year, month, range.startDay)));
      var end := FormatIsoDate(toGregorian(HijriDate(year, month, range.endDay)));
      Ok(DateRangeQuery(start, end))
  }

  /** `?date_after=${start}&date_before=${end}`. */
  function DateRangeQuery(start: string, end: string): string
  {
    "?date_after=" + start + "&date_before=" + end
  }

  /** `getUsers`: no access cookie fails first; then an invalid week fails with no request. */
  function UsersRequest(hasAccess: bool, year: int, month: int, weekIndex: int,
                        toGregorian: Converter, monthDays: MonthLength): (r: Result<string, QueryError>)
    ensures r.Ok? <==> hasAccess && 1 <= weekIndex <= 5
    ensures !hasAccess ==> r == Err(NoAccessToken)
  {
    if !hasAccess then Err(NoAccessToken)
    else
      match WeekQuery(year, month, weekIndex, toGregorian, monthDays)
      case Err(e) => Err(e)
      case Ok(q) => Ok("api/v1/users/" + q)
  }

  /** `getUserActivities`: the same week query against one user's activities. */
  function UserActivitiesRequest(hasAccess: bool, userId: int, year: int, month: int, weekIndex: int,
                                 toGregorian: Converter, monthDays: MonthLength): (r: Result<string, QueryError>)
    ensures r.Ok? <==> hasAccess && 1 <= weekIndex <= 5
    ensures !hasAccess ==> r == Err(NoAccessToken)
  {
    if !hasAccess then Err(NoAccessToken)
    else
      match WeekQuery(year, month, weekIndex, toGregorian, monthDays)
      case Err(e) => Err(e)
      case Ok(q) => Ok("api/v1/users/" + IntToString(userId) + "/activities/" + q)
  }

  /** `getPoints`: the same week query against the points summary. */
  function PointsRequest(hasAccess: bool, year: int, month: int, weekIndex: int,
                         toGregorian: Converter, monthDays: MonthLength): (r: Result<string, QueryError>)
    ensures r.Ok? <==> hasAccess && 1 <= weekIndex <= 5
    ensures !hasAccess ==> r == Err(NoAccessToken)
  {
    if !hasAccess then Err(NoAccessToken)
    else
      match WeekQuery(year, month, weekIndex, toGregorian, monthDays)
      case Err(e) => Err(e)
      case Ok(q) => Ok("api/v1/users/points/" + q)
  }

  /** The three actions fail on exactly the same inputs, with the same error, and when they
      succeed each request ends in the same date-range query. */
  lemma {:induction false} ThreeActionsAgree(hasAccess: bool, userId: int, year: int, month: int,
                                             weekIndex: int, toGregorian: Converter, monthDays: MonthLength)
    ensures var u := UsersRequest(hasAccess, year, month, weekIndex, toGregorian, monthDays);
            var a := UserActivitiesRequest(hasAccess, userId, year, month, weekIndex, toGregorian, monthDays);
            var p := PointsRequest(hasAccess, year, month, weekIndex, toGregorian, monthDays);
            && (u.Err? <==> a.Err?) && (u.Err? <==> p.Err?)
            && (u.Err? ==> u.error == a.error == p.error)
            && (u.Ok? ==> var q := WeekQuery(year, month, weekIndex, toGregorian, monthDays).value;
                          u.value == "api/v1/users/" + q
                          && a.value == "api/v1/users/" + IntToString(userId) + "/activities/" + q
                          && p.value == "api/v1/users/points/" + q)
  {
  }

  /** The query of `getUsersWithDetails`: the date filter only when both ends are non-empty. */
  function UsersWithDetailsQuery(start: string, end: string): (q: string)
    ensures q == "" <==> start == "" || end == ""
    ensures q != "" ==> q == DateRangeQuery(start, end)
  {
    if start != "" && end != "" then DateRangeQuery(start, end) else ""
  }

  /** A date range built by the week resolver always gives `getUsersWithDetails` its filter:
      formatted dates are never empty. */
  lemma {:induction false} WeekQueryFeedsUsersWithDetails(year: int, month: int, weekIndex: int,
                                                         toGregorian: Converter, monthDays: MonthLength)
    requires 1 <= weekIndex <= 5
    ensures var r := WeekDayRange(weekIndex, monthDays(year, month)).value;
            var start := FormatIsoDate(toGregorian(HijriDate(year, month, r.startDay)));
            var end := FormatIsoDate(toGregorian(HijriDate(year, month, r.endDay)));
            UsersWithDetailsQuery(start, end) == WeekQuery(year, month, weekIndex, toGregorian, monthDays).value
  {
    var r := WeekDayRange(weekIndex, monthDays(year, month)).value;
    var start := FormatIsoDate(toGregorian(HijriDate(year, month, r.startDay)));
    var end := FormatIsoDate(toGregorian(HijriDate(year, month, r.endDay)));
    DashedNonEmpty(toGregorian(HijriDate(year, month, r.startDay)));
    DashedNonEmpty(toGregorian(HijriDate(year, month, r.endDay)));
  }

  lemma DashedNonEmpty(g: GregorianDate)
    ensures FormatIsoDate(g) != ""
  {
    DashedLayout(IntToString(g.year), PadStart(IntToString(g.month), 2, '0'),
                 PadStart(IntToString(g.day), 2, '0'));
  }

  // ---------------------------------------------------------------------------
  // deleteUserActivity
  // ---------------------------------------------------------------------------

  /** The activity id as JavaScript sees it: a number, `undefined`, or `NaN`. */
  datatype ActivityId = Id(n: int) | Undefined | NaN

  /** `!activityId || typeof activityId !== "number" || isNaN(activityId)` rejects it. */
  predicate IsValidActivityId(id: ActivityId) { id.Id? && id.n != 0 }

  const InvalidIdMessage: string := "معرف النشاط غير صالح"
  const NotAuthorizedMessage: string := "غير مصرح - الرجاء تسجيل الدخول"
  const ConnectionFailedMessage: string := "فشل حذف النشاط - خطأ في الاتصال"

  /** What `deleteUserActivity` does before any reply: reject, or send a DELETE. */
  datatype DeleteStep = Rejected(error: string) | SendDelete(path: string)

  function DeletePlan(userId: int, activityId: ActivityId, hasAccess: bool): (step: DeleteStep)
    ensures step.SendDelete? <==> IsValidActivityId(activityId) && hasAccess
    ensures !IsValidActivityId(activityId) ==> step == Rejected(InvalidIdMessage)
    ensures IsValidActivityId(activityId) && !hasAccess ==> step == Rejected(NotAuthorizedMessage)
  {
    if !IsValidActivityId(activityId) then Rejected(InvalidIdMessage)
    else if !hasAccess then Rejected(NotAuthorizedMessage)
    else SendDelete("api/v1/users/" + IntToString(userId) + "/activities/" + IntToString(activityId.n) + "/")
  }

  /** The JSON error body of a failed reply; a body that is empty or not JSON has no fields. */
  datatype ErrorBody = ErrorBody(detail: Option<string>, message: Option<string>, error: Option<string>)

  datatype DeleteReply = Reply(status: int, ok: bool, body: ErrorBody) | ConnectionFailed

  datatype ActionResult = ActionResult(success: bool, error: Option<string>)

  /** `a || b || … || fallback` over optional strings: the first present, non-empty one. */
  function FirstNonEmpty(candidates: seq<Option<string>>, fallback: string): (r: string)
    ensures (forall k :: 0 <= k < |candidates| ==> candidates[k].None? || candidates[k].value == "")
            ==> r == fallback
    ensures forall k :: (0 <= k < |candidates| && candidates[k].Some? && candidates[k].value != ""
                         && (forall j :: 0 <= j < k ==> candidates[j].None? || candidates[j].value == ""))
                        ==> r == candidates[k].value
  {
    if |candidates| == 0 then fallback
    else if candidates[0].Some? && candidates[0].value != "" then candidates[0].value
    else FirstNonEmpty(candidates[1..], fallback)
  }

  /** The result of a delete that was sent, from the server's reply. */
  function DeleteOutcome(reply: DeleteReply): (r: ActionResult)
    ensures r.success <==> reply.Reply? && reply.ok
    ensures r.success ==> r.error.None?
    ensures reply.ConnectionFailed? ==> r.error == Some(ConnectionFailedMessage)
  {
    match reply
    case ConnectionFailed => ActionResult(false, Some(ConnectionFailedMessage))
    case Reply(status, ok, body) =>
      if ok then ActionResult(true, None)
      else ActionResult(false, Some(FirstNonEmpty([body.detail, body.message, body.error],
                                                  "فشل حذف النشاط (" + IntToString(status) + ")")))
  }

  /** `deleteUserActivity`: the plan, then, only when a request is sent, its outcome. */
  function DeleteUserActivity(userId: int, activityId: ActivityId, hasAccess: bool,
                              reply: DeleteReply): (r: ActionResult)
    ensures !IsValidActivityId(activityId) ==> r == ActionResult(false, Some(InvalidIdMessage))
    ensures r.success <==> IsValidActivityId(activityId) && hasAccess && reply.Reply? && reply.ok
  {
    match DeletePlan(userId, activityId, hasAccess)
    case Rejected(e) => ActionResult(false, Some(e))
    case SendDelete(_) => DeleteOutcome(reply)
  }

  /** A failed delete reports the first non-empty of detail, message and error, and names
      the HTTP status only when all three are missing or empty. */
  lemma {:induction false} DeleteErrorFallback(status: int, body: ErrorBody)
    ensures var r := DeleteOutcome(Reply(status, false, body));
            && r.error.Some?
            && (body.detail.Some? && body.detail.value != "" ==> r.error.value == body.detail.value)
            && ((body.detail.None? || body.detail.value == "") && body.message.Some? && body.message.value != ""
                ==> r.error.value == body.message.value)
            && (((body.detail.None? || body.detail.value == "") && (body.message.None? || body.message.value == "")
                 && body.error.Some? && body.error.value != "") ==> r.error.value == body.error.value)
            && (((body.detail.None? || body.detail.value == "") && (body.message.None? || body.message.value == "")
                 && (body.error.None? || body.error.value == ""))
                ==> r.error.value == "فشل حذف النشاط (" + IntToString(status) + ")")
  {
    var c := [body.detail, body.message, body.error];
    assert c[0] == body.detail && c[1] == body.message && c[2] == body.error;
  }
}
