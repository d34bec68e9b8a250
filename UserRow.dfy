/** One user's row of the control panel: the activities shown per category, the points, and
    `handleInput`, which reconciles the backend's activities with what the row's controls
    select. The backend is a store of activities that the row adds to and deletes from; the
    add and delete calls are assumed to reach it. */
module UserRow {
  import opened Common
  import opened Strings
  import opened Calendar
  import ControlBoard

  datatype Activity = Activity(id: int, category: int, date: string)

  /** An entry of the points summary. */
  datatype UserPoints = UserPoints(user: int, points: int)

  /** Category 5 is the counter category; every other category is a checkbox. */
  const CounterCategory: int := 5

  predicate IsCounter(a: Activity) { a.category == CounterCategory }

  predicate NotCounter(a: Activity) { a.category != CounterCategory }

  /** No two activities share an id. */
  predicate UniqueIds(s: seq<Activity>)
  {
    forall i, j :: 0 <= i < |s| && 0 <= j < |s| && s[i].id == s[j].id ==> i == j
  }

  predicate PositiveIds(s: seq<Activity>) { forall k :: 0 <= k < |s| ==> s[k].id >= 1 }

  lemma {:induction false} FilterKeepsUniqueIds(s: seq<Activity>, p: Activity -> bool)
    requires UniqueIds(s)
    ensures UniqueIds(Filter(s, p))
  {
    if |s| > 0 {
      assert UniqueIds(s[1..]) by {
        forall i, j | 0 <= i < |s| - 1 && 0 <= j < |s| - 1 && s[1..][i].id == s[1..][j].id
          ensures i == j
        {
          assert s[i + 1].id == s[j + 1].id;
        }
      }
      FilterKeepsUniqueIds(s[1..], p);
      if p(s[0]) {
        var r := Filter(s, p);
        var t := Filter(s[1..], p);
        assert r == [s[0]] + t;
        forall k | 0 <= k < |t| ensures t[k].id != s[0].id
        {
          assert t[k] in s[1..];
          var m :| 0 <= m < |s| - 1 && s[1..][m] == t[k];
          assert s[m + 1] == t[k];
        }
        forall i, j | 0 <= i < |r| && 0 <= j < |r| && r[i].id == r[j].id
          ensures i == j
        {
          if i > 0 && j > 0 {
            assert t[i - 1].id == t[j - 1].id;
          }
        }
      }
    }
  }

  // ---------------------------------------------------------------------------
  // The backend store of the user's activities
  // ---------------------------------------------------------------------------

  /** `id` of every activity of `ds`, in order. */
  function Ids(ds: seq<Activity>): (r: seq<int>)
    ensures |r| == |ds|
    ensures forall k :: 0 <= k < |ds| ==> r[k] == ds[k].id
  {
    if |ds| == 0 then [] else Ids(ds[..|ds| - 1]) + [ds[|ds| - 1].id]
  }

  /** What one `deleteUserActivity(uid, id)` leaves in the store: an invalid id is rejected
      before any request, a valid one removes the activity with that id. */
  function DeleteOne(acts: seq<Activity>, id: ControlBoard.ActivityId): seq<Activity>
  {
    if ControlBoard.IsValidActivityId(id) then Filter(acts, (a: Activity) => a.id != id.n) else acts
  }

  /** The store after deleting, in order, the activities `ds` by their ids. */
  function DeleteAll(acts: seq<Activity>, ds: seq<Activity>): seq<Activity>
  {
    if |ds| == 0 then acts else DeleteOne(DeleteAll(acts, ds[..|ds| - 1]), ControlBoard.Id(ds[|ds| - 1].id))
  }

  /** `n` activities of `category` dated `date`, with the ids the store hands out from `nextId`. */
  function NewActivities(nextId: int, n: nat, category: int, date: string): (r: seq<Activity>)
    ensures |r| == n
    ensures forall k :: 0 <= k < n ==> r[k] == Activity(nextId + k, category, date)
  {
    seq(n, k => Activity(nextId + k, category, date))
  }

  /** The backend's activities of one user, with the id it gives the next activity added. */
  class ActivityStore {
    var activities: seq<Activity>
    var nextId: int

    /** Ids are unique and below the next id to hand out. */
    ghost predicate Valid()
      reads this
    {
      nextId >= 1 && UniqueIds(activities)
      && forall k :: 0 <= k < |activities| ==> 1 <= activities[k].id < nextId
    }

    constructor ()
      ensures activities == [] && nextId == 1 && Valid()
    {
      activities := [];
      nextId := 1;
    }

    /** `addUserActivity(uid, category, date, 1)`: one new activity with a fresh id. */
    method Add(category: int, date: string)
      modifies this
      ensures activities == old(activities) + [Activity(old(nextId), category, date)]
      ensures nextId == old(nextId) + 1
      ensures old(Valid()) ==> Valid()
    {
      activities := activities + [Activity(nextId, category, date)];
      nextId := nextId + 1;
    }

    /** `deleteUserActivity(uid, id)` with an access token and a successful reply. */
    method Delete(id: ControlBoard.ActivityId) returns (r: ControlBoard.ActionResult)
      modifies this`activities
      ensures activities == DeleteOne(old(activities), id)
      ensures r.success <==> ControlBoard.IsValidActivityId(id)
      ensures !r.success ==> r.error == Some(ControlBoard.InvalidIdMessage)
      ensures old(Valid()) ==> Valid()
    {
      r := ControlBoard.DeleteUserActivity(0, id, true, ControlBoard.Reply(204, true, ControlBoard.ErrorBody(None, None, None)));
      if ControlBoard.IsValidActivityId(id) {
        if Valid() {
          FilterKeepsUniqueIds(activities, (a: Activity) => a.id != id.n);
        }
        activities := Filter(activities, (a: Activity) => a.id != id.n);
      }
    }
  }

  // ---------------------------------------------------------------------------
  // The category-5 counter
  // ---------------------------------------------------------------------------

  /** The number of category-5 activities: the value the counter shows. */
  function CounterValue(list: seq<Activity>): (n: nat)
    ensures n <= |list|
    ensures n == 0 <==> forall k :: 0 <= k < |list| ==> list[k].category != CounterCategory
  {
    var e := Filter(list, IsCounter);
    assert |e| > 0 ==> IsCounter(e[0]) && e[0] in list;
    |e|
  }

  /** `Number(count)`: a number, or None for NaN (which compares false with everything). */
  type Count = Option<int>

  /** How many leading category-5 activities a lower count deletes: `slice(0, current - n)`,
      clamped to the list as `slice` is. */
  function DeleteCount(current: nat, n: int): (k: nat)
    requires n < current
    ensures k <= current
    ensures n >= 0 ==> k == current - n
  {
    if n < 0 then current else current - n
  }

  /** The category-5 branch of `handleInput`: add the missing activities one by one, or
      delete the first surplus ones in list order, or do nothing. `list` is the row's
      `activitiesList`, the snapshot the decision is made on. */
  method SyncCounter(store: ActivityStore, list: seq<Activity>, count: Count, date: string)
    modifies store
    ensures var current := CounterValue(list);
            count.None? || count.value == current ==> store.activities == old(store.activities) && store.nextId == old(store.nextId)
    ensures var current := CounterValue(list);
            count.Some? && count.value > current ==>
              store.activities == old(store.activities) + NewActivities(old(store.nextId), count.value - current, CounterCategory, date)
              && store.nextId == old(store.nextId) + (count.value - current)
    ensures var current := CounterValue(list);
            count.Some? && count.value < current ==>
              store.activities == DeleteAll(old(store.activities), Filter(list, IsCounter)[..DeleteCount(current, count.value)])
              && store.nextId == old(store.nextId)
    ensures old(store.Valid()) ==> store.Valid()
  {
    var existing := Filter(list, IsCounter);
    var current := |existing|;
    if count.None? {
      return;
    }
    var n := count.value;
    if n > current {
      AddCounters(store, n - current, date);
    } else if n < current {
      DeleteEach(store, existing[..DeleteCount(current, n)]);
    }
  }

  /** The raising loop: `diff` calls that add one category-5 activity each. */
  method AddCounters(store: ActivityStore, diff: nat, date: string)
    modifies store
    ensures store.activities == old(store.activities) + NewActivities(old(store.nextId), diff, CounterCategory, date)
    ensures store.nextId == old(store.nextId) + diff
    ensures old(store.Valid()) ==> store.Valid()
  {
    var i := 0;
    while i < diff
      invariant 0 <= i <= diff
      invariant store.activities == old(store.activities) + NewActivities(old(store.nextId), i, CounterCategory, date)
      invariant store.nextId == old(store.nextId) + i
      invariant old(store.Valid()) ==> store.Valid()
    {
      store.Add(CounterCategory, date);
      assert NewActivities(old(store.nextId), i + 1, CounterCategory, date)
             == NewActivities(old(store.nextId), i, CounterCategory, date) + [Activity(old(store.nextId) + i, CounterCategory, date)];
      i := i + 1;
    }
  }

  /** The lowering loop: one delete call per activity of `toDelete`, in order. */
  method DeleteEach(store: ActivityStore, toDelete: seq<Activity>)
    modifies store
    ensures store.activities == DeleteAll(old(store.activities), toDelete)
    ensures store.nextId == old(store.nextId)
    ensures old(store.Valid()) ==> store.Valid()
  {
    var i := 0;
    while i < |toDelete|
      invariant 0 <= i <= |toDelete|
      invariant store.activities == DeleteAll(old(store.activities), toDelete[..i])
      invariant store.nextId == old(store.nextId)
      invariant old(store.Valid()) ==> store.Valid()
    {
      var _ := store.Delete(ControlBoard.Id(toDelete[i].id));
      assert toDelete[..i + 1][..i] == toDelete[..i];
      i := i + 1;
    }
    assert toDelete[..|toDelete|] == toDelete;
  }

  /** Adding the missing activities to the row's own list brings the counter to the target
      and leaves every other category as it was. */
  lemma {:induction false} RaisingReachesCount(list: seq<Activity>, nextId: int, n: int, date: string)
    requires n > CounterValue(list)
    ensures var after := list + NewActivities(nextId, n - CounterValue(list), CounterCategory, date);
            CounterValue(after) == n && Filter(after, NotCounter) == Filter(list, NotCounter)
  {
    var added := NewActivities(nextId, n - CounterValue(list), CounterCategory, date);
    FilterAppend(list, added, IsCounter);
    FilterAppend(list, added, NotCounter);
    FilterAll(added, IsCounter);
    FilterNone(added, NotCounter);
  }

  /** Each deleted id is one of the listed activities' ids. */
  lemma {:induction false} DeleteAllIsFilter(acts: seq<Activity>, ds: seq<Activity>)
    requires PositiveIds(ds)
    ensures DeleteAll(acts, ds) == Filter(acts, (a: Activity) => a.id !in Ids(ds))
  {
    if |ds| == 0 {
      FilterAll(acts, (a: Activity) => a.id !in Ids(ds));
    } else {
      var init := ds[..|ds| - 1];
      var last := ds[|ds| - 1].id;
      DeleteAllIsFilter(acts, init);
      assert Ids(ds) == Ids(init) + [last];
      FilterFilter(acts, (a: Activity) => a.id !in Ids(init), (a: Activity) => a.id != last,
                   (a: Activity) => a.id !in Ids(ds));
    }
  }

  /** Deleting the ids of the first `k` category-5 activities of a list with unique ids leaves
      exactly the remaining category-5 activities, in order, and every other activity. */
  lemma {:induction false} LoweringReachesCount(list: seq<Activity>, k: nat)
    requires UniqueIds(list) && PositiveIds(list)
    requires k <= CounterValue(list)
    ensures var e := Filter(list, IsCounter);
            var after := DeleteAll(list, e[..k]);
            Filter(after, IsCounter) == e[k..] && Filter(after, NotCounter) == Filter(list, NotCounter)
  {
    var e := Filter(list, IsCounter);
    var ds := e[..k];
    FilterKeepsUniqueIds(list, IsCounter);
    assert PositiveIds(ds) by {
      forall j | 0 <= j < |ds| ensures ds[j].id >= 1
      {
        assert ds[j] == e[j];
        assert e[j] in list;
      }
    }
    DeleteAllIsFilter(list, ds);
    SurvivingCounters(list, k);
    SurvivingOthers(list, ds);
  }

  /** The category-5 activities left after removing the ids of the first `k` of them. */
  lemma {:induction false} SurvivingCounters(list: seq<Activity>, k: nat)
    requires UniqueIds(Filter(list, IsCounter))
    requires k <= CounterValue(list)
    ensures var e := Filter(list, IsCounter);
            Filter(Filter(list, (a: Activity) => a.id !in Ids(e[..k])), IsCounter) == e[k..]
  {
    var e := Filter(list, IsCounter);
    var ds := e[..k];
    var notIn := (a: Activity) => a.id !in Ids(ds);
    FilterCommute(list, notIn, IsCounter);
    PrefixIdsNotInSuffix(e, k);
    forall j | 0 <= j < k ensures !notIn(e[j])
    {
      assert e[j].id == Ids(ds)[j];
    }
    forall j | k <= j < |e| ensures notIn(e[j])
    {
      assert e[j] == e[k..][j - k];
    }
    FilterDropsPrefix(e, k, notIn);
  }

  /** In a list with unique ids no activity after position `k` has the id of one before it. */
  lemma PrefixIdsNotInSuffix(e: seq<Activity>, k: nat)
    requires UniqueIds(e) && k <= |e|
    ensures forall j :: 0 <= j < |e| - k ==> e[k..][j].id !in Ids(e[..k])
  {
    var ids := Ids(e[..k]);
    forall j | 0 <= j < |e| - k ensures e[k..][j].id !in ids
    {
      forall i | 0 <= i < k ensures ids[i] != e[k + j].id
      {
        assert ids[i] == e[i].id;
      }
    }
  }

  /** Removing the ids of category-5 activities of a list with unique ids keeps every
      activity of another category. */
  lemma {:induction false} SurvivingOthers(list: seq<Activity>, ds: seq<Activity>)
    requires UniqueIds(list)
    requires forall j :: 0 <= j < |ds| ==> IsCounter(ds[j]) && ds[j] in list
    ensures Filter(Filter(list, (a: Activity) => a.id !in Ids(ds)), NotCounter) == Filter(list, NotCounter)
  {
    var notIn := (a: Activity) => a.id !in Ids(ds);
    FilterCommute(list, notIn, NotCounter);
    var others := Filter(list, NotCounter);
    forall j | 0 <= j < |others| ensures notIn(others[j])
    {
    }
    FilterAll(others, notIn);
  }

  /** When the row's list is the store's content, the counter branch leaves exactly the
      selected number of category-5 activities (a negative count deletes them all) and does
      not touch any other category. */
  lemma {:induction false} CounterReconciles(list: seq<Activity>, nextId: int, n: int, date: string)
    requires UniqueIds(list) && PositiveIds(list)
    ensures var current := CounterValue(list);
            var after := if n > current then list + NewActivities(nextId, n - current, CounterCategory, date)
                         else if n < current then DeleteAll(list, Filter(list, IsCounter)[..DeleteCount(current, n)])
                         else list;
            CounterValue(after) == (if n < 0 then 0 else n)
            && Filter(after, NotCounter) == Filter(list, NotCounter)
  {
    var current := CounterValue(list);
    if n > current {
      RaisingReachesCount(list, nextId, n, date);
    } else if n < current {
      LoweringReachesCount(list, DeleteCount(current, n));
    }
  }

  // ---------------------------------------------------------------------------
  // The entry date and the row's view
  // ---------------------------------------------------------------------------

  /** The Hijri day an entry for a past or future week is dated on. */
  function EntryDay(weekIndex: int): int
  {
    if weekIndex == 1 then 1 else (weekIndex - 1) * 7 + 1
  }

  /** The entry day is the first day of the week bucket the resolver gives for the same week. */
  lemma EntryDayIsWeekStart(weekIndex: int, monthDays: int)
    requires 1 <= weekIndex <= 5
    ensures EntryDay(weekIndex) == ControlBoard.WeekDayRange(weekIndex, monthDays).value.startDay
    ensures EntryDay(weekIndex) == (weekIndex - 1) * 7 + 1
  {
  }

  /** `${year}-${month}-${day}T17:55:09.157Z`: the converted date with no zero padding. */
  function EntryStamp(g: GregorianDate): string
  {
    Dashed(IntToString(g.year), IntToString(g.month), IntToString(g.day)) + "T17:55:09.157Z"
  }

  /** The date `handleInput` sends: the current instant for the current week, otherwise the
      stamp of the week's entry day. */
  function EntryDate(weekIndex: int, currentWeek: int, year: int, month: int, nowIso: string,
                     toGregorian: Converter): (date: string)
    ensures weekIndex == currentWeek ==> date == nowIso
    ensures weekIndex != currentWeek ==> date == EntryStamp(toGregorian(HijriDate(year, month, EntryDay(weekIndex))))
  {
    if weekIndex == currentWeek then nowIso
    else EntryStamp(toGregorian(HijriDate(year, month, EntryDay(weekIndex))))
  }

  /** For a four-digit year and a one-digit month the stamp carries the month's digit where
      the backend's YYYY-MM-DD format has the padding zero. */
  lemma EntryStampNotPadded(g: GregorianDate)
    requires 1000 <= g.year <= 9999 && 1 <= g.month <= 9 && 0 <= g.day < 100
    ensures FormatIsoDate(g)[5] == '0'
    ensures EntryStamp(g)[4] == '-' && EntryStamp(g)[5] != '0'
  {
    NatToStringFourDigits(g.year);
    NatToStringAtMostTwo(g.day);
    var y, m := IntToString(g.year), IntToString(g.month);
    assert m == [DigitChar(g.month)];
    DashedLayout(y, m, IntToString(g.day));
    var pm := PadStart(m, 2, '0');
    var pd := PadStart(IntToString(g.day), 2, '0');
    assert pm[0] == '0';
    DashedLayout(y, pm, pd);
  }

  /** The activities of one category, in list order. */
  function CategoryActivities(list: seq<Activity>, categoryId: int): (r: seq<Activity>)
    ensures forall k :: 0 <= k < |r| ==> r[k].category == categoryId && r[k] in list
    ensures forall k :: 0 <= k < |list| && list[k].category == categoryId ==> list[k] in r
  {
    Filter(list, (a: Activity) => a.category == categoryId)
  }

  /** A checkbox shows checked exactly when some activity has its category. */
  function CheckboxChecked(list: seq<Activity>, categoryId: int): (checked: bool)
    ensures checked <==> exists k :: 0 <= k < |list| && list[k].category == categoryId
  {
    var cs := CategoryActivities(list, categoryId);
    assert |cs| > 0 ==> cs[0] in list;
    |cs| > 0
  }

  /** The first activity of a category is the first activity of the list with that
      category. */
  lemma {:induction false} FirstOfCategory(list: seq<Activity>, categoryId: int)
    requires |CategoryActivities(list, categoryId)| > 0
    ensures exists k :: 0 <= k < |list| && list[k] == CategoryActivities(list, categoryId)[0]
                        && list[k].category == categoryId
                        && forall j :: 0 <= j < k ==> list[j].category != categoryId
  {
    if list[0].category == categoryId {
      assert CategoryActivities(list, categoryId)[0] == list[0];
    } else {
      assert CategoryActivities(list, categoryId) == CategoryActivities(list[1..], categoryId);
      FirstOfCategory(list[1..], categoryId);
      var k :| 0 <= k < |list[1..]| && list[1..][k] == CategoryActivities(list[1..], categoryId)[0]
               && list[1..][k].category == categoryId
               && forall j :: 0 <= j < k ==> list[1..][j].category != categoryId;
      assert list[k + 1] == list[1..][k];
      forall j | 0 <= j < k + 1 ensures list[j].category != categoryId
      {
        if j > 0 {
          assert list[j] == list[1..][j - 1];
        }
      }
    }
  }

  /** The id a checkbox passes to `handleInput`: that of the first activity of its category. */
  function CheckboxActivityId(list: seq<Activity>, categoryId: int): (id: ControlBoard.ActivityId)
    ensures id.Undefined? <==> !CheckboxChecked(list, categoryId)
    ensures id.Id? <==> CheckboxChecked(list, categoryId)
    ensures id.Id? ==> exists k :: 0 <= k < |list| && list[k].category == categoryId && list[k].id == id.n
                                   && forall j :: 0 <= j < k ==> list[j].category != categoryId
  {
    var cs := CategoryActivities(list, categoryId);
    if |cs| == 0 then ControlBoard.Undefined
    else
      FirstOfCategory(list, categoryId);
      ControlBoard.Id(cs[0].id)
  }

  predicate IsUserEntry(userId: int, p: UserPoints) { p.user == userId }

  /** The points shown: those of the first summary entry of the user, or 0. */
  function PointsOf(summary: seq<UserPoints>, userId: int): (r: int)
    ensures (forall k :: 0 <= k < |summary| ==> summary[k].user != userId) ==> r == 0
    ensures forall k :: (0 <= k < |summary| && summary[k].user == userId
                         && (forall j :: 0 <= j < k ==> summary[j].user != userId)) ==> r == summary[k].points
  {
    match FindFirst(summary, p => IsUserEntry(userId, p))
    case None => 0
    case Some(i) => summary[i].points
  }

  /** The row's state: its user, the activities it shows and the points it shows. */
  class Row {
    const userId: int
    var activitiesList: seq<Activity>
    var points: int

    /** The state on first render, before the data arrives. */
    constructor (userId: int)
      ensures this.userId == userId && activitiesList == [] && points == 0
    {
      this.userId := userId;
      activitiesList := [];
      points := 0;
    }

    /** `setActivitiesList` and `setPoints` from the backend's answer. */
    method Refresh(store: ActivityStore, summary: seq<UserPoints>)
      modifies this`activitiesList, this`points
      ensures activitiesList == store.activities
      ensures points == PointsOf(summary, userId)
    {
      activitiesList := store.activities;
      points := PointsOf(summary, userId);
    }

    /** `handleInput`: nothing while loading; otherwise the counter branch for category 5,
        the checkbox branch for the others (checked adds one activity, unchecked deletes the
        given id, no id does nothing), then a refresh from the store. */
    method HandleInput(store: ActivityStore, summary: seq<UserPoints>, loading: bool,
                       activityId: ControlBoard.ActivityId, categoryId: int, checked: bool, count: Count,
                       weekIndex: int, currentWeek: int, year: int, month: int, nowIso: string,
                       toGregorian: Converter)
      modifies this`activitiesList, this`points, store
      ensures loading ==> activitiesList == old(activitiesList) && points == old(points)
                          && store.activities == old(store.activities) && store.nextId == old(store.nextId)
      ensures var date := EntryDate(weekIndex, currentWeek, year, month, nowIso, toGregorian);
              !loading && categoryId != CounterCategory && checked ==>
                store.activities == old(store.activities) + [Activity(old(store.nextId), categoryId, date)]
      ensures !loading && categoryId != CounterCategory && checked ==> store.nextId == old(store.nextId) + 1
      ensures !loading && categoryId != CounterCategory && !checked && !activityId.Undefined? ==>
                store.activities == DeleteOne(old(store.activities), activityId)
      ensures !loading && categoryId != CounterCategory && !checked && activityId.Undefined? ==>
                store.activities == old(store.activities)
      ensures !loading && categoryId != CounterCategory && !checked ==> store.nextId == old(store.nextId)
      ensures var date := EntryDate(weekIndex, currentWeek, year, month, nowIso, toGregorian);
              var current := CounterValue(old(activitiesList));
              !loading && categoryId == CounterCategory && count.Some? && count.value > current ==>
                store.activities == old(store.activities) + NewActivities(old(store.nextId), count.value - current, CounterCategory, date)
                && store.nextId == old(store.nextId) + (count.value - current)
      ensures var current := CounterValue(old(activitiesList));
              !loading && categoryId == CounterCategory && count.Some? && count.value < current ==>
                store.activities == DeleteAll(old(store.activities), Filter(old(activitiesList), IsCounter)[..DeleteCount(current, count.value)])
                && store.nextId == old(store.nextId)
      ensures var current := CounterValue(old(activitiesList));
              !loading && categoryId == CounterCategory && (count.None? || count.value == current) ==>
                store.activities == old(store.activities) && store.nextId == old(store.nextId)
      ensures !loading ==> activitiesList == store.activities && points == PointsOf(summary, userId)
      ensures old(store.Valid()) ==> store.Valid()
    {
      if loading {
        return;
      }
      var date := EntryDate(weekIndex, currentWeek, year, month, nowIso, toGregorian);
      if categoryId == CounterCategory {
        SyncCounter(store, activitiesList, count, date);
      } else if checked {
        store.Add(categoryId, date);
      } else if !activityId.Undefined? {
        var _ := store.Delete(activityId);
      }
      Refresh(store, summary);
    }
  }
}
