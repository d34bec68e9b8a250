/** The goal of the month: the points request over a whole Hijri month, from day 1 to its last
    day, and the selection of the first result. */
module Goal {
  import opened Common
  import opened Strings
  import opened Calendar
  import opened ControlBoard

  /** Day 1 to the last day of the month. */
  function MonthDayRange(monthDays: int): (r: DayRange)
    ensures r.startDay == 1 && r.endDay == monthDays
  {
    DayRange(1, monthDays)
  }

  /** In a 29- or 30-day month every week bucket lies inside the month's range, so the goal's
      range covers the union of the five weekly ranges; with WeeksPartitionMonth, every day of
      the month lies in exactly one of them. */
  lemma MonthHoldsEveryWeek(weekIndex: int, monthDays: int)
    requires monthDays == 29 || monthDays == 30
    requires 1 <= weekIndex <= 5
    ensures var w := WeekDayRange(weekIndex, monthDays).value;
            InRange(w.startDay, MonthDayRange(monthDays)) && InRange(w.endDay, MonthDayRange(monthDays))
    ensures WeekDayRange(1, monthDays).value.startDay == MonthDayRange(monthDays).startDay
    ensures WeekDayRange(5, monthDays).value.endDay == MonthDayRange(monthDays).endDay
  {
  }

  /** `?date_after=start&date_before=end` with both ends converted and formatted as in the
      control board actions. The query names the Gregorian days of Hijri day 1 and of the
      month's last day, and both read back from it when the converter gives non-negative
      fields. */
  function GoalQuery(year: int, month: int, toGregorian: Converter, monthDays: MonthLength): (q: string)
    ensures var g1 := toGregorian(HijriDate(year, month, 1));
            var g2 := toGregorian(HijriDate(year, month, monthDays(year, month)));
            g1.year >= 0 && g1.month >= 0 && g1.day >= 0 && g2.year >= 0 && g2.month >= 0 && g2.day >= 0 ==>
              exists s, e :: q == "?date_after=" + s + "&date_before=" + e
                             && ParseIsoDate(s) == Some(g1) && ParseIsoDate(e) == Some(g2)
  {
    var range := MonthDayRange(monthDays(year, month));
    var s := FormatIsoDate(toGregorian(HijriDate(year, month, range.startDay)));
    var e := FormatIsoDate(toGregorian(HijriDate(year, month, range.endDay)));
    assert DateRangeQuery(s, e) == "?date_after=" + s + "&date_before=" + e;
    DateRangeQuery(s, e)
  }

  /** The goal's range for a month is the range of the points request for its week 1 start and
      week 5 end: same path, same formatter, same converter. */
  lemma GoalSpansTheWeeks(year: int, month: int, toGregorian: Converter, monthDays: MonthLength)
    requires monthDays(year, month) == 29 || monthDays(year, month) == 30
    ensures GoalQuery(year, month, toGregorian, monthDays)
            == DateRangeQuery(FormatIsoDate(toGregorian(HijriDate(year, month, WeekDayRange(1, monthDays(year, month)).value.startDay))),
                              FormatIsoDate(toGregorian(HijriDate(year, month, WeekDayRange(5, monthDays(year, month)).value.endDay))))
  {
    MonthHoldsEveryWeek(1, monthDays(year, month));
    MonthHoldsEveryWeek(5, monthDays(year, month));
  }

  /** A goal record; every field may be missing. */
  datatype GoalData = GoalData(id: Option<int>, description: Option<string>, target: Option<int>, current: Option<int>)

  /** The endpoint's answer: a failed response, or a body whose `results` may be missing. */
  datatype GoalReply = GoalFailed(status: int, text: string) | GoalBody(results: Option<seq<GoalData>>)

  datatype GoalResponse = GoalResponse(success: bool, data: Option<GoalData>, error: Option<string>)

  const GoalNoAccessMessage: string := "No access token found"

  /** Reading `[0]` of a missing `results` throws a TypeError; its text here is the V8 one. */
  const MissingResultsMessage: string := "Cannot read properties of undefined (reading '0')"

  function GoalFailedMessage(status: int, text: string): string
  {
    "Failed to fetch goal data: " + IntToString(status) + " - " + text
  }

  /** `getGoalOfTheMonth`: `respond` is what the backend answers for a request path. Without
      an access cookie, on a failed response and when `results` is missing the answer is
      `success: false` with no data and the error's message; otherwise it is the first
      result, none when there are no results. */
  function GetGoalOfTheMonth(hasAccess: bool, year: int, month: int, toGregorian: Converter,
                             monthDays: MonthLength, respond: string -> GoalReply): (r: GoalResponse)
    ensures var reply := respond("api/v1/users/points/" + GoalQuery(year, month, toGregorian, monthDays));
            (r.success <==> hasAccess && reply.GoalBody? && reply.results.Some?)
            && (r.success ==> r.error.None?
                              && (|reply.results.value| == 0 ==> r.data.None?)
                              && (|reply.results.value| > 0 ==> r.data == Some(reply.results.value[0])))
            && (!r.success ==> r.data.None? && r.error.Some?)
            && (hasAccess && reply.GoalFailed? ==> r.error == Some(GoalFailedMessage(reply.status, reply.text)))
    ensures !hasAccess ==> r == GoalResponse(false, None, Some(GoalNoAccessMessage))
  {
    if !hasAccess then GoalResponse(false, None, Some(GoalNoAccessMessage))
    else
      var reply := respond("api/v1/users/points/" + GoalQuery(year, month, toGregorian, monthDays));
      match reply
      case GoalFailed(status, text) => GoalResponse(false, None, Some(GoalFailedMessage(status, text)))
      case GoalBody(results) =>
        if results.None? then GoalResponse(false, None, Some(MissingResultsMessage))
        else if |results.value| == 0 then GoalResponse(true, None, None)
        else GoalResponse(true, Some(results.value[0]), None)
  }
}
