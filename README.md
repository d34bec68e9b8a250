# Hijri activity tracker: a verified model of its core rules

The application is a Next.js front end over a REST backend. Students log their weekly
activities, a control board lets supervisors tick or count activities per student and week,
and a home dashboard shows the month's goal and a points leaderboard. Weeks are buckets of a
Hijri month. Week 1 to 4 are fixed 7-day blocks, and week 5 is day 29, or days 29 and 30. The
backend is queried with Gregorian `YYYY-MM-DD` dates.

The model covers the rules under the fetch, cookie and JSX glue:

- **Week buckets and date queries** (`ControlBoard`, `Goal`, `Calendar`):
  - the day range of a Hijri week bucket and of a whole month;
  - the zero-padded date format with its parse-back;
  - the query strings of `getUsers`, `getUserActivities`, `getPoints`, `getUsersWithDetails` and `getGoalOfTheMonth`;
  - the id validation and error-message fallback of `deleteUserActivity`.
- **Navigation state** (`ControlPanel`, `Dashboard`):
  - the control board's (week, month, year) cursor;
  - the dashboard's (month, year) cursor, whose forward move compares months only;
  - the Student filter of the control table.
- **Activity reconciliation** (`UserRow`): a table row against an activity store.
  - The category-5 select adds or deletes activities until the count matches.
  - The checkbox categories add or delete one activity.
  - The entry date of a new activity.
  - The checked state, the select value and the points shown.
- **Sign-up and tokens** (`Auth`):
  - the ordered field validators, where the first failure wins, and the error map;
  - the normalisation of an accepted form;
  - the access-token expiry test, compared with the `exp` claim of RFC 7519 section 4.1.4;
  - the `checkTokenValidity` decision and the `login` failure branch.
- **Leaderboard** (`PerformanceBoard`, `PerformanceClient`):
  - the three response shapes;
  - the in-place descending sort;
  - the per-user mapping, with a fallback when details are missing;
  - the ascending display copy, its maximum and minimum, the colour bands and the view choice.
- **Gregorian week helpers** (`Utils`):
  - the Friday-to-Thursday week on or around a day, and its offsets;
  - week numbers within a month and the month's total;
  - the month cut into 7-day chunks;
  - the month name table.

`Common` and `Strings` hold shared definitions for the JavaScript built-ins the model relies on: option and result values, `find`, `filter`, `String(n)`, `padStart`, `trim` and `toLowerCase`.

The code's state changes keep their imperative form:

- **React state** is a class whose methods change only the fields they name:
  - `WeekNavigator`, `MonthNavigator` and `Row`;
  - `ActivityStore`, the backend's list of a user's activities in the week the row shows.
- **The category-5 counter** runs `for` loops of add and delete calls on the store.
- **The leaderboard results** are sorted in place in an array.
- **`getWeeksOfMonth`** is a `while` loop.

Outside code becomes parameters. They are total functions, so the only assumption is that they never throw:

- the Hijri to Gregorian converter (`Converter`);
- the month-length function `getHijriMonthDays` (`MonthLength`), which lib/utils.ts does not define;
- the JWT decoder, as the decoded payload;
- the clock, as `nowMs`, `nowIso` or today's date;
- the backend's answers, as reply values or functions from request paths to replies.

## Model

| member | source | states |
|---|---|---|
| Calendar.FormatIsoDate | actions/ControlBoard.ts:238-245 | the `year-MM-DD` string of a date; every date with non-negative fields is read back from it exactly |
| Calendar.FormatIsoDateShape | actions/ControlBoard.ts:430-431 | for a four-digit year and month and day below 100 the string has ten characters, dashes at 4 and 7 and digits elsewhere |
| Calendar.DashedLayout | actions/ControlBoard.ts:238-245 | where the year, the padded month, the padded day and the two dashes sit in the string |
| Strings.NatToStringRoundTrip | actions/ControlBoard.ts:238-245 | `String(n)` of a natural number is a non-empty digit string whose value is `n` |
| Strings.PadStart | actions/ControlBoard.ts:238-241 | `padStart(width, fill)` leaves a string at least `width` long alone and otherwise prepends the fill up to `width` characters |
| Strings.PadStartRoundTrip | actions/ControlBoard.ts:238-245 | the padded digits keep their numeric value |
| Strings.Trim | actions/auth-actions.ts:161-195 | `trim()` is a substring with whitespace at neither end, and every removed character is whitespace |
| Strings.TrimIdempotent | actions/auth-actions.ts:161-205 | trimming twice is trimming once |
| Strings.ToLowerAscii | actions/auth-actions.ts:236-238 | same length, no upper-case ASCII letter is left, and every other character is kept |
| Strings.ToLowerAsciiIdempotent | actions/auth-actions.ts:236 | lower-casing twice is lower-casing once |
| Common.FindFirst | components/Control-Board/userRow.tsx:78-79 | the index of the first element that satisfies the predicate, or none when none does |
| Common.Filter | components/Control-Board/ControlPanelClient.tsx:304-323 | keeps exactly the elements that satisfy the predicate, in order |
| ControlBoard.WeekDayRange | actions/ControlBoard.ts:211-222 | weeks 1 to 4 are days 7(w-1)+1 to 7w; week 5 starts on day 29 and ends on 29 iff the month has 29 days, else on 30; any other index fails with "Invalid weekIndex" |
| ControlBoard.WeeksAreConsecutive | actions/ControlBoard.ts:211-222 | each week starts the day after the previous one ends |
| ControlBoard.WeeksPartitionMonth | actions/ControlBoard.ts:211-222 | in a 29- or 30-day month every day lies in exactly one week, and no week holds a day outside the month |
| ControlBoard.WeekQuery | actions/ControlBoard.ts:206-248 | the query exists iff the week index is 1 to 5; otherwise the error is InvalidWeekIndex |
| ControlBoard.UsersRequest | actions/ControlBoard.ts:200-267 | `getUsers` fails without an access cookie, then for a week outside 1 to 5, and makes a request otherwise |
| ControlBoard.UserActivitiesRequest | actions/ControlBoard.ts:307-359 | `getUserActivities` fails and requests under the same conditions |
| ControlBoard.PointsRequest | actions/ControlBoard.ts:392-433 | `getPoints` fails and requests under the same conditions |
| ControlBoard.ThreeActionsAgree | actions/ControlBoard.ts:211-222 | the three copies of the range logic (also 323-334 and 403-414), modelled once as WeekQuery, make the three actions fail on the same inputs with the same error and otherwise carry the same date query |
| ControlBoard.UsersWithDetailsQuery | actions/ControlBoard.ts:121 | the query is `?date_after=…&date_before=…` iff both dates are non-empty, else "" |
| ControlBoard.WeekQueryFeedsUsersWithDetails | actions/ControlBoard.ts:121 | for a valid week the two formatted dates are non-empty, so the date query is always added |
| ControlBoard.DeletePlan | actions/ControlBoard.ts:54-68 | a falsy or NaN id is rejected with its message before anything else; a valid id without an access cookie is refused with the not-authorised message; a DELETE is sent iff both checks pass |
| ControlBoard.FirstNonEmpty | actions/ControlBoard.ts:95-99 | the first present, non-empty candidate, else the fallback |
| ControlBoard.DeleteOutcome | actions/ControlBoard.ts:70-107 | it succeeds iff the reply is ok, and then carries no error; a connection failure has its own message |
| ControlBoard.DeleteUserActivity | actions/ControlBoard.ts:54-110 | an invalid id fails with its message; it succeeds iff the id is valid, the cookie is there and the reply is ok |
| ControlBoard.DeleteErrorFallback | actions/ControlBoard.ts:95-99 | a failed reply's message is the first non-empty of detail, message and error, and with none of them it carries the status code |
| ControlPanel.InitialWeekIndex | components/Control-Board/ControlPanelClient.tsx:63-68 | ceil(day/7) for days up to 28, which is 1 to 4, and 5 from day 29 |
| ControlPanel.InitialWeekHoldsToday | components/Control-Board/ControlPanelClient.tsx:63-68 | in a 29- or 30-day month today's day is in the range of the initial week |
| ControlPanel.NextIsOneBucketLater | components/Control-Board/ControlPanelClient.tsx:123-136 | "next" keeps week and month in range and is one bucket later on the timeline, wrapping week 5 and month 12 |
| ControlPanel.PrevIsOneBucketEarlier | components/Control-Board/ControlPanelClient.tsx:140-153 | "prev" keeps week and month in range and is one bucket earlier, wrapping week 1 and month 1 |
| ControlPanel.OrdinalDeterminesPosition | components/Control-Board/ControlPanelClient.tsx:118-155 | two valid cursors with the same timeline position are equal |
| ControlPanel.StepsAreInverse | components/Control-Board/ControlPanelClient.tsx:118-155 | "prev" after "next" and "next" after "prev" restore the cursor |
| ControlPanel.WeekNavigator.constructor | components/Control-Board/ControlPanelClient.tsx:63-75 | the cursor starts at today's Hijri month and year and the initial week |
| ControlPanel.WeekNavigator.SetLoading | components/Control-Board/ControlPanelClient.tsx:118-119 | sets only the loading flag |
| ControlPanel.WeekNavigator.HandleWeekChange | components/Control-Board/ControlPanelClient.tsx:118-155 | nothing changes while loading; otherwise the cursor takes one step, and the ranges are kept |
| ControlPanel.RenderRows | components/Control-Board/ControlPanelClient.tsx:304-323 | no users give the empty-list message; otherwise every row is a student from the list, and every student gets a row |
| ControlPanel.NoStudentsEmptyTable | components/Control-Board/ControlPanelClient.tsx:304-323 | a non-empty list without any student gives a table with no row, not the empty-list message |
| UserRow.FilterKeepsUniqueIds | components/Control-Board/userRow.tsx:134-142 | deleting from a list with unique ids keeps them unique |
| UserRow.ActivityStore.constructor | actions/ControlBoard.ts:307-391 | the store stands for the list `getUserActivities` answers for the row's week, which `addUserActivity` and `deleteUserActivity` change; it starts empty, and its first id is 1 |
| UserRow.ActivityStore.Add | components/Control-Board/userRow.tsx:134-136 | appends one activity with a fresh id and keeps the ids unique |
| UserRow.ActivityStore.Delete | actions/ControlBoard.ts:54-110 | removes exactly the activity with that id when the id is valid, and succeeds iff it is valid |
| UserRow.CounterValue | components/Control-Board/userRow.tsx:243 | the select shows the number of category-5 activities, which is 0 exactly when there is none |
| UserRow.DeleteCount | components/Control-Board/userRow.tsx:131-142 | how many deletions a lower selection asks for: the difference for a non-negative selection, never more than the current count |
| UserRow.SyncCounter | components/Control-Board/userRow.tsx:122-143 | a higher count appends exactly the difference in new activities; a lower count deletes the first surplus category-5 activities in list order; nothing else changes |
| UserRow.AddCounters | components/Control-Board/userRow.tsx:131-136 | the raising loop appends exactly `diff` new category-5 activities with consecutive fresh ids, and the store's next id moves on by `diff` |
| UserRow.DeleteEach | components/Control-Board/userRow.tsx:137-142 | the lowering loop deletes the given activities' ids one by one, in order, and leaves the next id alone |
| UserRow.RaisingReachesCount | components/Control-Board/userRow.tsx:131-136 | after raising, the category-5 count is the new count and other categories are unchanged |
| UserRow.DeleteAllIsFilter | components/Control-Board/userRow.tsx:137-142 | deleting a list of ids one by one removes exactly those ids |
| UserRow.LoweringReachesCount | components/Control-Board/userRow.tsx:137-142 | after lowering, the category-5 activities are the last ones of the old list and other categories are unchanged |
| UserRow.CounterReconciles | components/Control-Board/userRow.tsx:122-143 | the category-5 count ends at the selection, or at 0 for a negative one, and other categories are untouched |
| UserRow.EntryDayIsWeekStart | components/Control-Board/userRow.tsx:104-113 | for a non-current week the entry day is the week's first day in the week resolver |
| UserRow.EntryDate | components/Control-Board/userRow.tsx:104-114 | a week with today's week index, in any month, uses the clock's timestamp; another week uses the converted first day of the week at the fixed time |
| UserRow.EntryStampNotPadded | components/Control-Board/userRow.tsx:104-114 | unlike the query format, the entry date is not zero-padded: a one-digit month gives different strings |
| UserRow.CategoryActivities | components/Control-Board/userRow.tsx:199-204 | exactly the activities of that category, in order |
| UserRow.CheckboxChecked | components/Control-Board/userRow.tsx:199-214 | the checkbox is checked iff some activity has that category |
| UserRow.FirstOfCategory | components/Control-Board/userRow.tsx:199-204 | the first activity of a category's filtered list is the earliest activity of the list with that category |
| UserRow.CheckboxActivityId | components/Control-Board/userRow.tsx:199-214 | the checkbox gets an id iff it is checked, and that id is the one of the earliest activity of its category in the list |
| UserRow.PointsOf | components/Control-Board/userRow.tsx:78-79 | the points of the first entry for this user, else 0 |
| UserRow.Row.constructor | components/Control-Board/userRow.tsx:56-60 | a row starts with no activities and 0 points |
| UserRow.Row.Refresh | components/Control-Board/userRow.tsx:160-169 | the row's state becomes the store's list, which stands for the viewed week's activities, and the points shown for this user |
| UserRow.Row.HandleInput | components/Control-Board/userRow.tsx:94-178 | does nothing while loading; otherwise the counter sync for category 5, or for a checkbox an add when checked, a delete of the given id, or nothing without an id; the store's next id grows by one per added activity and is unchanged otherwise; then the row shows the store's list and the user's points |
| Auth.NameError | actions/auth-actions.ts:161-186 | on the trimmed name, first match wins: missing or empty, under 2, over 50, a character outside the allowed set; none iff the name is acceptable |
| Auth.ShapeHasAddress | actions/auth-actions.ts:193 | the scan accepts only strings that match `^[^\s@]+@[^\s@]+\.[^\s@]+$` |
| Auth.AddressHasShape | actions/auth-actions.ts:193 | every string that matches the pattern is accepted by the scan |
| Auth.EmailShapeIsPattern | actions/auth-actions.ts:193 | the scan and the pattern agree on every string |
| Auth.EmailError | actions/auth-actions.ts:189-197 | on the trimmed email, first match wins: blank, no "@", no pattern match, over 254 characters |
| Auth.TrimmedAtInRaw | actions/auth-actions.ts:189-193 | an "@" in the trimmed email is an "@" of the raw input |
| Auth.PasswordError | actions/auth-actions.ts:210-224 | on the untrimmed password, the seven checks in order, first failure wins; none iff the password is acceptable |
| Auth.RequiredError | actions/auth-actions.ts:200-207 | referrer and username fail iff blank after trimming |
| Auth.Normalise | actions/auth-actions.ts:231-240 | names and username trimmed, email trimmed and lower-cased, referrer lower-cased only, password as given |
| Auth.Signup | actions/auth-actions.ts:150-240 | each field's error is recorded under its key, and a user is created iff no field failed, with the normalised form |
| Auth.RecordErrors | actions/auth-actions.ts:161-224 | the error map holds exactly the fields with an error, each with its message |
| Auth.NormalisedUserIsValid | actions/auth-actions.ts:226-240 | the normalised user passes the name, email, password and both required checks (username and referrer) again |
| Auth.LowerKeepsBlankness | actions/auth-actions.ts:238 | lower-casing keeps a string blank exactly when it was blank |
| Auth.LoginResult | actions/auth-actions.ts:37-69 | on a reply without an access token the error keyed "email" is the backend detail or the default; otherwise tokens are stored and the user redirected |
| Auth.IsAccessTokenExpired | actions/auth-actions.ts:78-90 | expired iff the token does not decode, has no or a zero `exp`, or `exp` lies before now |
| Auth.ExpiryVersusRfc7519 | actions/auth-actions.ts:78-90 | it is the RFC 7519 "on or after exp" test except at exactly `exp`, where the token still counts as valid |
| Auth.CheckTokenValidity | actions/auth-actions.ts:111-148 | invalid without a refresh token; valid with a fresh access token; otherwise valid iff the refresh succeeds |
| Auth.FreshAccessNeedsNoRefresh | actions/auth-actions.ts:116-147 | with a refresh token and an access token that has not expired, the result is valid and no refresh is attempted |
| Dashboard.PreviousIsOneMonthEarlier | components/Home/DashboardContainer.tsx:68-76 | "previous" keeps the month in 1 to 12 and is one month earlier, wrapping January to December of the year before |
| Dashboard.NextIsOneMonthLater | components/Home/DashboardContainer.tsx:78-86 | "next" keeps the month in 1 to 12 and is one month later |
| Dashboard.NextWrapUnreachable | components/Home/DashboardContainer.tsx:65-86 | with the starting month at most 12 a permitted "next" never starts from December |
| Dashboard.PreviousThenNextRestores | components/Home/DashboardContainer.tsx:68-86 | for 2 ≤ month ≤ starting month, "next" after "previous" is allowed and restores the cursor |
| Dashboard.EarlierYearIsStuck | components/Home/DashboardContainer.tsx:65 | a month of an earlier year at or past the starting month lies before the start but cannot move forward |
| Dashboard.NeverPastTheStart | components/Home/DashboardContainer.tsx:65-86 | neither handler moves the cursor past the starting month |
| Dashboard.MonthNavigator.constructor | components/Home/DashboardContainer.tsx:34-40 | starts at today's Hijri month and year, loading |
| Dashboard.MonthNavigator.SetLoading | components/Home/DashboardContainer.tsx:34-40 | sets only the loading flag |
| Dashboard.PreviousButtonMatchesHandler | components/Home/PerformanceBoardClient.tsx:67 | the previous button is disabled exactly when a click would leave the cursor unchanged; otherwise the click is one month back |
| Dashboard.NextButtonMatchesHandler | components/Home/PerformanceBoardClient.tsx:75 | the next button is disabled exactly when a click would leave the cursor unchanged; otherwise the click is one month on |
| Dashboard.MonthNavigator.HandlePreviousMonth | components/Home/DashboardContainer.tsx:68-76 | nothing while loading, otherwise one month back; the cursor stays put iff the previous button is disabled; keeps the month in range |
| Dashboard.MonthNavigator.HandleNextMonth | components/Home/DashboardContainer.tsx:78-86 | nothing while loading or when `canGoNext` is false, otherwise one month on; the cursor stays put iff the next button is disabled; keeps the month in range and the year unchanged |
| PerformanceClient.Insert | components/Home/PerformanceBoardClient.tsx:40 | inserting into an ascending sequence keeps it ascending and adds exactly that user |
| PerformanceClient.SortAscending | components/Home/PerformanceBoardClient.tsx:40 | an ascending permutation of the users; the input is a value and is not changed |
| PerformanceClient.MaxPoints | components/Home/PerformanceBoardClient.tsx:42-43 | 0 when empty; otherwise attained and an upper bound |
| PerformanceClient.MinPoints | components/Home/PerformanceBoardClient.tsx:44-45 | 0 when empty; otherwise attained and a lower bound |
| PerformanceClient.ExtremesOfSorted | components/Home/PerformanceBoardClient.tsx:40-45 | sorting keeps the maximum and minimum, which are the last and the first bar |
| PerformanceClient.SameUsersSameMax | components/Home/PerformanceBoardClient.tsx:42-43 | the maximum depends only on the users, not their order |
| PerformanceClient.SameUsersSameMin | components/Home/PerformanceBoardClient.tsx:44-45 | the minimum depends only on the users, not their order |
| PerformanceClient.BarBand | components/Home/PerformanceBoardClient.tsx:47-58 | Top iff a lone user or the maximum; Bottom iff otherwise the minimum; else Middle |
| PerformanceClient.Bars | components/Home/PerformanceBoardClient.tsx:198-255 | one bar per user of the ascending copy, in order, each with its band |
| PerformanceClient.AllEqualAllTop | components/Home/PerformanceBoardClient.tsx:47-58 | when all points are equal every bar is Top |
| PerformanceClient.EndsOfTheBoard | components/Home/PerformanceBoardClient.tsx:47-58 | with two or more users the last bar is Top, and the first is Bottom unless it ties with the maximum |
| PerformanceClient.Board | components/Home/PerformanceBoardClient.tsx:104-198 | loading first, then a non-empty error, then the empty message for no users; otherwise exactly the chart of the banded bars |
| PerformanceClient.NextDisabled | components/Home/PerformanceBoardClient.tsx:75 | the next button is enabled iff not loading and `canGoNext` holds |
| PerformanceBoard.NormaliseResults | actions/PerformanceBoard.ts:79-87 | an array as is, else the object's `results` array, else the object as the only result, else none |
| PerformanceBoard.SortDescending | actions/PerformanceBoard.ts:98-102 | the array ends in descending order of points, missing points counting as 0, and holds the same results |
| PerformanceBoard.DisplayName | actions/PerformanceBoard.ts:174 | the first name, one space, the last name |
| PerformanceBoard.GetUserDetails | actions/PerformanceBoard.ts:147-187 | succeeds iff there is an access cookie and the reply is ok, then with the user's fields and joined name; otherwise no user and the error's message |
| PerformanceBoard.MapItem | actions/PerformanceBoard.ts:105-131 | the details' fields when fetched, else the user id, "مستخدم", no username and no groups; points are `points \|\| 0` |
| PerformanceBoard.MapLeaderboard | actions/PerformanceBoard.ts:105-131 | one entry per result, in the same order |
| PerformanceBoard.MappedKeepsOrder | actions/PerformanceBoard.ts:98-131 | the displayed leaderboard keeps the descending order, and each fallback entry names its user by id |
| PerformanceBoard.BoardEnds | actions/PerformanceBoard.ts:98-131 | the first entry has the highest points of all results and the last the lowest |
| PerformanceBoard.GetLeaderboardData | actions/PerformanceBoard.ts:50-145 | the two error messages; success with [] for no results; otherwise the mapping of a descending permutation of the results |
| Goal.MonthDayRange | actions/goal.ts:27-38 | the month's range runs from day 1 to the month's last day |
| Goal.MonthHoldsEveryWeek | actions/goal.ts:27-38 | each week bucket of a 29- or 30-day month lies in the month's range, with which it shares its first and last days |
| Goal.GoalQuery | actions/goal.ts:27-55 | the query is `?date_after=s&date_before=e`, and s and e read back as the converted first and last days of the Hijri month |
| Goal.GoalSpansTheWeeks | actions/goal.ts:27-55 | the goal's query runs from the start of week 1 to the end of week 5 |
| Goal.GetGoalOfTheMonth | actions/goal.ts:22-85 | succeeds iff there is a cookie, an ok reply and a `results` array; data is the first result, none for no results; every failure has no data and a message |
| Utils.FridayAnchor | lib/utils.ts:28-31 | the week start is a Friday at most six days back, and the only one |
| Utils.WeekOfOffsetShape | lib/utils.ts:28-43 | a week runs from a Friday to the Thursday six days on; offset 0 holds today; successive offsets are adjacent |
| Utils.GetWeekByOffset | lib/utils.ts:28-43 | the Friday on or before today moved by seven days per offset, and the Thursday after it |
| Utils.GetCurrentWeek | lib/utils.ts:12-26 | `getCurrentWeek()` is the week of offset 0, which holds today |
| Utils.DaysInMonth | lib/utils.ts:56-62 | 28 to 31 days, 29 exactly for February of a leap year |
| Utils.LeapYearsStep | lib/utils.ts:56-62 | the leap-year count grows by one exactly at each Gregorian leap year |
| Utils.DayNumberAnchors | lib/utils.ts:12-15 | day 0 is 1970-01-01 and 2024-01-01 falls on a Monday under `getDay()` |
| Utils.LastDayPrecedesNextMonth | lib/utils.ts:59 | for the year as given, `new Date(year, month + 1, 0)` is the day before the first of the next month, December included |
| Utils.GetWeekNumber | lib/utils.ts:45-54 | for the year as given, the date lies in the Friday-to-Thursday week the number names, counted from the week holding the first of the month, and from the first on the number is at least 1 |
| Utils.WeekNumberMonotone | lib/utils.ts:45-54 | later days of a month never have a smaller week number |
| Utils.GetTotalWeeksInMonth | lib/utils.ts:56-62 | for the year as given, the month's total is 4 to 6 weeks |
| Utils.WeekNumberAtMostTotal | lib/utils.ts:45-62 | for the year as given, every day's week number lies from 1 to the month's total |
| Utils.GetWeeksOfMonth | lib/utils.ts:93-109 | for the year as given: ceil(days/7) chunks, the k-th from first+7k to six days later, each starting in the month, the last reaching its end, every day in exactly one chunk |
| Utils.GetHijriMonth | lib/utils.ts:64-74 | one of the twelve names, chosen by the clock's Gregorian month |
| Utils.HijriMonthNamesDistinct | lib/utils.ts:64-74 | two dates get the same name iff their Gregorian months agree |

## Left out

- Network calls, cookies, `redirect`, `revalidatePath` and logging are not modelled. Cookie presence is a boolean parameter, and each backend answer is a reply value.
- The Hijri/Gregorian converter library, `getHijriMonthDays`, `jwtDecode` and the clock are foreign code. They are parameters. As total Dafny functions they are assumed never to throw, and nothing else is assumed of them. `getHijriMonthDays` is imported from lib/utils.ts, which does not define it.
- The converter's throw on a date it rejects is not modelled. In `getUsers`, `getUserActivities` and `getPoints` (actions/ControlBoard.ts:200-269, 307-391, 392-462) and in `getGoalOfTheMonth` (actions/goal.ts:28-38) it would be caught and returned as `success: false`. In `handleInput` (components/Control-Board/userRow.tsx:108) it comes before the `try`, so the handler would stop before any add or delete.
- `toArabicDigits` is left out. It changes only the displayed digits.
- JavaScript `Date` time zones, hours, milliseconds and daylight-saving shifts are not modelled. In lib/utils.ts a date is its day number, and `toISOString().split('T')[0]` is taken to give that day. In a time zone east of UTC, local midnight is the previous day in UTC.
- Utils.GetWeekNumber: takes the year as given. JavaScript's `new Date(y, m, d)` maps a year from 0 to 99 to 1900+y, so for a date in years 0 to 99 the original counts from the month of 1900+y: 0050-01-10 gives -99135 there and 2 here.
- Utils.WeekNumberAtMostTotal: holds for the year as given. For a date in years 0 to 99 the original's week number is far below 1, as under Utils.GetWeekNumber.
- Utils.GetTotalWeeksInMonth: takes the year as given. For a month in years 0 to 99 the original's `new Date(year, month + 1, 0)` is a day of 1900+y: January of year 2 gives 6 there, from 1902-01-31, and 5 here.
- Utils.GetWeeksOfMonth: takes the year as given. For a month in years 0 to 99 the original's first and last days (lib/utils.ts:96-97) are those of the month of 1900+y.
- Utils.LastDayPrecedesNextMonth: states the day arithmetic for the year as given, not the original's mapping of years 0 to 99 to 1900+y.
- Utils.GetWeekNumber: works on whole days. The original floors a millisecond difference, which can lose a day across a daylight-saving change.
- String lengths count characters, where JavaScript counts UTF-16 code units. Characters outside the Basic Multilingual Plane are the difference.
- `toLowerCase` is modelled for ASCII letters only, and `trim` for the JavaScript whitespace set.
- The regular expressions are modelled as character predicates and an explicit scan, not as a regex engine.
- Floating-point code is left out: bar heights, the progress value and the goal progress.
- `Promise.all` is an order-preserving sequential map.
- PerformanceClient.SortAscending: the order of users with equal points is not stated. The engine's sort is stable, and so is the insertion here, which puts a user before the first one with at least as many points, but no ensures says so.
- PerformanceBoard.SortDescending: the order of results with equal points is not stated. The engine's sort is stable; the insertion sort here is also stable, but no ensures says so.
- PerformanceBoard.GetLeaderboardData: a JSON body of `null` or of a primitive (a number, a string or a boolean) is not modelled; the `in` tests at actions/PerformanceBoard.ts:80-82 throw on it. A `results` that is present but not an array is not modelled either. It falls through to the single-result test in the original.
- PerformanceBoard.GetLeaderboardData: an exception that is not an `Error` ("Unknown error") is not modelled. Every error raised here is an `Error`.
- Goal.GetGoalOfTheMonth: a missing `results` yields the TypeError message V8 uses. Other engines word it differently.
- UserRow.Row.HandleInput: the add and delete calls are assumed to succeed. A failed call and the `alert` of the `catch` block are not modelled.
- UserRow.Row.HandleInput: the response-shape fallback of the activities refresh (`newActivities.activities || …`) is not modelled. The store always answers with its list.
- UserRow.Row.HandleInput: the `setLoading` and `fetchWeekData` callbacks are not modelled.
- UserRow.Row.Refresh: the store stands for the activities of the week the row shows, the answer of `getUserActivities(userId, year, month, weekIndex)`, which is filtered by that week's dates. The full backend list is not modelled.
- UserRow.Row.HandleInput: a new activity is assumed to fall inside the viewed week, so the refresh shows it. In the original, a week whose index equals today's week index but which lies in another month gets today's timestamp. That entry falls outside the viewed week's query, and the refreshed list does not show it.
- `addUserActivity`'s request body and its backend reply are not modelled. UserRow.ActivityStore.Add models its effect on the store.
- Auth.Signup: the result of `createUser` on the backend is not modelled, and neither is the message returned on a backend failure.
- Auth.Signup: a missing form field (`formData.get` gives `null`) is modelled as the empty string. Every validator treats the two alike.
- `getUserRole` and the role test in `checkTokenValidity`'s callers are not modelled.
- The `else` branch of `login` (actions/auth-actions.ts:62-68) is left out. It cannot be reached: the branch before it covers every reply without an access token.
- The dashboard passes `(year, month)` to `getLeaderboardData`, which takes no parameters. The leaderboard is therefore the same for every month, and the model's GetLeaderboardData has no month argument.
- Utils.GetHijriMonth: it does not convert to the Hijri calendar. The original picks a name by the Gregorian month index, and the model does the same.
- `cn`, `formatDate` and `categoryColors` in lib/utils.ts are left out. They are styling and locale formatting.
