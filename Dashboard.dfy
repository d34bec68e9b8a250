/** The home dashboard's month cursor: the Hijri (month, year) it shows, the month it
    started on, and the previous/next handlers, of which "next" is limited by comparing months
    only. */
module Dashboard {
  import opened Calendar
  import PerformanceClient

  /** `canGoNext`: the shown month is before the starting month; the year plays no part. */
  predicate CanGoNext(month: int, currentMonth: int) { month < currentMonth }

  /** A (month, year) pair of the cursor. */
  datatype MonthPosition = MonthPosition(month: int, year: int)

  predicate ValidMonth(p: MonthPosition) { 1 <= p.month <= 12 }

  /** The month before: December of the previous year before January. */
  function PreviousMonth(p: MonthPosition): MonthPosition
  {
    if p.month == 1 then MonthPosition(12, p.year - 1) else p.(month := p.month - 1)
  }

  /** The month after: January of the next year after December. */
  function NextMonth(p: MonthPosition): MonthPosition
  {
    if p.month == 12 then MonthPosition(1, p.year + 1) else p.(month := p.month + 1)
  }

  /** The number of months since month 1 of year 0: the cursor's place on the timeline. */
  function MonthOrdinal(p: MonthPosition): int { p.year * 12 + (p.month - 1) }

  /** "previous" is one month back on the timeline and keeps the month in 1..12. */
  lemma PreviousIsOneMonthEarlier(p: MonthPosition)
    requires ValidMonth(p)
    ensures ValidMonth(PreviousMonth(p)) && MonthOrdinal(PreviousMonth(p)) == MonthOrdinal(p) - 1
  {
  }

  /** "next" is one month forward on the timeline and keeps the month in 1..12. */
  lemma NextIsOneMonthLater(p: MonthPosition)
    requires ValidMonth(p)
    ensures ValidMonth(NextMonth(p)) && MonthOrdinal(NextMonth(p)) == MonthOrdinal(p) + 1
  {
  }

  /** With the starting month at most 12, a permitted "next" never starts from December, so
      the year never changes going forward. */
  lemma NextWrapUnreachable(p: MonthPosition, currentMonth: int)
    requires currentMonth <= 12 && CanGoNext(p.month, currentMonth)
    ensures p.month != 12 && NextMonth(p) == MonthPosition(p.month + 1, p.year)
  {
  }

  /** For a month from 2 up to the starting month, "next" after "previous" is allowed and
      brings the cursor back. */
  lemma PreviousThenNextRestores(p: MonthPosition, currentMonth: int)
    requires 2 <= p.month <= currentMonth <= 12
    ensures CanGoNext(PreviousMonth(p).month, currentMonth)
    ensures NextMonth(PreviousMonth(p)) == p
  {
  }

  /** Going back past January lands on December of the year before, from which "next" is
      refused: more generally, no month of an earlier year at or after the starting month can
      move forward, though it lies before the starting point. */
  lemma EarlierYearIsStuck(p: MonthPosition, start: MonthPosition)
    requires ValidMonth(start) && ValidMonth(p)
    requires p.year < start.year && p.month >= start.month
    ensures MonthOrdinal(p) < MonthOrdinal(start)
    ensures !CanGoNext(p.month, start.month)
  {
  }

  /** The cursor never goes past the month it started on: both handlers keep it at or before
      the start on the timeline. */
  lemma NeverPastTheStart(p: MonthPosition, start: MonthPosition)
    requires ValidMonth(p) && ValidMonth(start) && MonthOrdinal(p) <= MonthOrdinal(start)
    ensures MonthOrdinal(PreviousMonth(p)) <= MonthOrdinal(start)
    ensures CanGoNext(p.month, start.month) ==> MonthOrdinal(NextMonth(p)) <= MonthOrdinal(start)
  {
    PreviousIsOneMonthEarlier(p);
    if CanGoNext(p.month, start.month) {
      NextIsOneMonthLater(p);
      if p.year == start.year {
        assert p.month < start.month;
      } else {
        assert p.year < start.year;
      }
    }
  }

  /** What a click on "previous" leaves: the same cursor while loading, else the month before. */
  function AfterPrevious(isLoading: bool, p: MonthPosition): MonthPosition
  {
    if isLoading then p else PreviousMonth(p)
  }

  /** What a click on "next" leaves: the same cursor while loading or when `canGoNext` is
      false, else the month after. */
  function AfterNext(isLoading: bool, p: MonthPosition, currentMonth: int): MonthPosition
  {
    if isLoading || !CanGoNext(p.month, currentMonth) then p else NextMonth(p)
  }

  /** The "previous" button is disabled exactly when a click would leave the cursor where it
      is. */
  lemma PreviousButtonMatchesHandler(isLoading: bool, p: MonthPosition)
    ensures PerformanceClient.PreviousDisabled(isLoading) <==> AfterPrevious(isLoading, p) == p
    ensures !isLoading ==> MonthOrdinal(AfterPrevious(isLoading, p)) == MonthOrdinal(p) - 1
  {
  }

  /** The "next" button is disabled exactly when a click would leave the cursor where it is;
      an enabled click from a valid cursor moves it one month on. */
  lemma NextButtonMatchesHandler(isLoading: bool, p: MonthPosition, currentMonth: int)
    requires ValidMonth(p)
    ensures PerformanceClient.NextDisabled(isLoading, CanGoNext(p.month, currentMonth))
            <==> AfterNext(isLoading, p, currentMonth) == p
    ensures !PerformanceClient.NextDisabled(isLoading, CanGoNext(p.month, currentMonth))
            ==> MonthOrdinal(AfterNext(isLoading, p, currentMonth)) == MonthOrdinal(p) + 1
  {
    if !isLoading && CanGoNext(p.month, currentMonth) {
      NextIsOneMonthLater(p);
    }
  }

  /** The dashboard's `currentMonth`, `month`, `year` and `isLoading` state. */
  class MonthNavigator {
    const currentMonth: int
    var month: int
    var year: int
    var isLoading: bool

    function Position(): MonthPosition
      reads this
    {
      MonthPosition(month, year)
    }

    ghost predicate Valid()
      reads this
    {
      1 <= month <= 12 && 1 <= currentMonth <= 12
    }

    /** The state on first render: today's Hijri month and year, loading. */
    constructor (today: HijriDate)
      ensures currentMonth == today.month && Position() == MonthPosition(today.month, today.year)
      ensures isLoading
      ensures 1 <= today.month <= 12 ==> Valid()
    {
      currentMonth := today.month;
      month := today.month;
      year := today.year;
      isLoading := true;
    }

    method SetLoading(b: bool)
      modifies this`isLoading
      ensures isLoading == b
    {
      isLoading := b;
    }

    /** `handlePreviousMonth`: nothing while loading; otherwise one month back. */
    method HandlePreviousMonth()
      modifies this`month, this`year
      ensures Position() == AfterPrevious(isLoading, old(Position()))
      ensures Position() == old(Position()) <==> PerformanceClient.PreviousDisabled(isLoading)
      ensures old(Valid()) ==> Valid()
    {
      if isLoading {
        return;
      }
      if month == 1 {
        month := 12;
        year := year - 1;
      } else {
        month := month - 1;
      }
    }

    /** `handleNextMonth`: nothing while loading or when `canGoNext` is false; otherwise one
        month forward, which from a valid state never changes the year. */
    method HandleNextMonth()
      modifies this`month, this`year
      ensures Position() == AfterNext(isLoading, old(Position()), currentMonth)
      ensures Position() == old(Position())
              <==> PerformanceClient.NextDisabled(isLoading, CanGoNext(old(month), currentMonth))
      ensures old(Valid()) ==> Valid() && year == old(year)
    {
      if isLoading || !CanGoNext(month, currentMonth) {
        return;
      }
      if month == 12 {
        month := 1;
        year := year + 1;
      } else {
        month := month + 1;
      }
    }
  }
}
