/** The control panel's week cursor: the initial week of today's Hijri date, the
    previous/next navigation over (week, month, year), and the rows it renders. */
module ControlPanel {
  import opened Common
  import opened Calendar
  import ControlBoard

  /** `Math.ceil(day / 7)` for days up to 28, and week 5 from day 29 on. */
  function InitialWeekIndex(day: int): (w: int)
    ensures day <= 28 ==> 7 * (w - 1) < day <= 7 * w
    ensures 1 <= day <= 28 ==> 1 <= w <= 4
    ensures day > 28 ==> w == 5
  {
    if day <= 28 then (day + 6) / 7 else 5
  }

  /** The initial week is the bucket of the resolver that holds today's day of the month. */
  lemma InitialWeekHoldsToday(day: int, monthDays: int)
    requires monthDays == 29 || monthDays == 30
    requires 1 <= day <= monthDays
    ensures ControlBoard.WeekDayRange(InitialWeekIndex(day), monthDays).Ok?
    ensures ControlBoard.InRange(day, ControlBoard.WeekDayRange(InitialWeekIndex(day), monthDays).value)
  {
    var w := InitialWeekIndex(day);
    if day <= 28 {
      assert 7 * (w - 1) < day <= 7 * w;
      assert (w - 1) * 7 + 1 <= day;
    }
  }

  /** A position of the cursor: week bucket, Hijri month and Hijri year. */
  datatype Position = Position(week: int, month: int, year: int)

  predicate ValidPosition(p: Position) { 1 <= p.week <= 5 && 1 <= p.month <= 12 }

  datatype Direction = Prev | Next

  /** "next": the following week, or week 1 of the following month after week 5. */
  function StepNext(p: Position): Position
  {
    if p.week < 5 then p.(week := p.week + 1)
    else if p.month == 12 then Position(1, 1, p.year + 1)
    else Position(1, p.month + 1, p.year)
  }

  /** "prev": the preceding week, or week 5 of the preceding month before week 1. */
  function StepPrev(p: Position): Position
  {
    if p.week > 1 then p.(week := p.week - 1)
    else if p.month == 1 then Position(5, 12, p.year - 1)
    else Position(5, p.month - 1, p.year)
  }

  function Step(p: Position, dir: Direction): Position
  {
    match dir
    case Next => StepNext(p)
    case Prev => StepPrev(p)
  }

  /** The number of week buckets since week 1 of month 1 of year 0: the cursor's place on a
      single timeline of five buckets per month. */
  function WeekOrdinal(p: Position): int
  {
    (p.year * 12 + (p.month - 1)) * 5 + (p.week - 1)
  }

  /** "next" moves exactly one bucket forward on the timeline and keeps the cursor valid. */
  lemma NextIsOneBucketLater(p: Position)
    requires ValidPosition(p)
    ensures ValidPosition(StepNext(p))
    ensures WeekOrdinal(StepNext(p)) == WeekOrdinal(p) + 1
  {
  }

  /** "prev" moves exactly one bucket back on the timeline and keeps the cursor valid. */
  lemma PrevIsOneBucketEarlier(p: Position)
    requires ValidPosition(p)
    ensures ValidPosition(StepPrev(p))
    ensures WeekOrdinal(StepPrev(p)) == WeekOrdinal(p) - 1
  {
  }

  /** Valid positions are determined by their place on the timeline. */
  lemma {:induction false} OrdinalDeterminesPosition(p: Position, q: Position)
    requires ValidPosition(p) && ValidPosition(q)
    requires WeekOrdinal(p) == WeekOrdinal(q)
    ensures p == q
  {
    var mp, mq := p.year * 12 + (p.month - 1), q.year * 12 + (q.month - 1);
    SplitBy5(mp, p.week - 1);
    SplitBy5(mq, q.week - 1);
    SplitBy12(p.year, p.month - 1);
    SplitBy12(q.year, q.month - 1);
  }

  lemma SplitBy5(a: int, r: int)
    requires 0 <= r < 5
    ensures (a * 5 + r) / 5 == a && (a * 5 + r) % 5 == r
  {
  }

  lemma SplitBy12(a: int, r: int)
    requires 0 <= r < 12
    ensures (a * 12 + r) / 12 == a && (a * 12 + r) % 12 == r
  {
  }

  /** "prev" undoes "next" and "next" undoes "prev", on every valid position. */
  lemma {:induction false} StepsAreInverse(p: Position)
    requires ValidPosition(p)
    ensures StepPrev(StepNext(p)) == p
    ensures StepNext(StepPrev(p)) == p
  {
    NextIsOneBucketLater(p);
    PrevIsOneBucketEarlier(StepNext(p));
    OrdinalDeterminesPosition(StepPrev(StepNext(p)), p);
    PrevIsOneBucketEarlier(p);
    NextIsOneBucketLater(StepPrev(p));
    OrdinalDeterminesPosition(StepNext(StepPrev(p)), p);
  }

  /** The `weekIndex`, `month` and `year` state of the panel and its loading flag. */
  class WeekNavigator {
    var weekIndex: int
    var month: int
    var year: int
    var loading: bool

    function Current(): Position
      reads this
    {
      Position(weekIndex, month, year)
    }

    ghost predicate Valid()
      reads this
    {
      ValidPosition(Current())
    }

    /** The state on first render, from today's Hijri date. */
    constructor (today: HijriDate)
      ensures Current() == Position(InitialWeekIndex(today.day), today.month, today.year)
      ensures !loading
      ensures 1 <= today.day && 1 <= today.month <= 12 ==> Valid()
    {
      weekIndex := InitialWeekIndex(today.day);
      month := today.month;
      year := today.year;
      loading := false;
    }

    method SetLoading(b: bool)
      modifies this`loading
      ensures loading == b
    {
      loading := b;
    }

    /** `handleWeekChange(dir)`: nothing while loading; otherwise one step in `dir`. */
    method HandleWeekChange(dir: Direction)
      modifies this`weekIndex, this`month, this`year
      ensures old(loading) ==> Current() == old(Current())
      ensures !old(loading) ==> Current() == Step(old(Current()), dir)
      ensures old(Valid()) ==> Valid()
    {
      if loading {
        return;
      }
      if dir == Next {
        if weekIndex < 5 {
          weekIndex := weekIndex + 1;
        } else {
          weekIndex := 1;
          if month == 12 {
            month := 1;
            year := year + 1;
          } else {
            month := month + 1;
          }
        }
      } else {
        if weekIndex > 1 {
          weekIndex := weekIndex - 1;
        } else {
          weekIndex := 5;
          if month == 1 {
            month := 12;
            year := year - 1;
          } else {
            month := month - 1;
          }
        }
      }
    }
  }

  // ---------------------------------------------------------------------------
  // The rendered user rows
  // ---------------------------------------------------------------------------

  datatype PanelUser = PanelUser(id: int, username: string, groups: Option<seq<string>>,
                                 points: int, supervisor: string)

  /** `user?.groups?.includes("Student")`. */
  predicate IsStudent(u: PanelUser) { u.groups.Some? && "Student" in u.groups.value }

  datatype RowsView = NoUsersMessage | Rows(rows: seq<PanelUser>)

  /** An empty user list shows the "no people" message; otherwise one row per student, in
      order, and nothing for the other users. */
  function RenderRows(users: seq<PanelUser>): (v: RowsView)
    ensures v.NoUsersMessage? <==> |users| == 0
    ensures v.Rows? ==> forall k :: 0 <= k < |v.rows| ==> IsStudent(v.rows[k]) && v.rows[k] in users
    ensures v.Rows? ==> forall k :: 0 <= k < |users| && IsStudent(users[k]) ==> users[k] in v.rows
  {
    if |users| == 0 then NoUsersMessage else Rows(Filter(users, IsStudent))
  }

  /** A non-empty list without students renders an empty table, not the message. */
  lemma {:induction false} NoStudentsEmptyTable(users: seq<PanelUser>)
    requires |users| > 0
    requires forall k :: 0 <= k < |users| ==> !IsStudent(users[k])
    ensures RenderRows(users) == Rows([])
  {
    FilterNone(users, IsStudent);
  }
}
