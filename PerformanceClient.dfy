/** The performance board on the home page: an ascending copy of the leaderboard, its
    highest and lowest points, the colour band of each bar, and which of the four views
    (loading, error, empty, bars) is shown. */
module PerformanceClient {
  import opened Common

  datatype LeaderboardUser = LeaderboardUser(id: int, name: string, username: string,
                                             points: int, groups: seq<string>)

  predicate SortedAscending(s: seq<LeaderboardUser>)
  {
    forall i, j :: 0 <= i < j < |s| ==> s[i].points <= s[j].points
  }

  /** `u` placed in front of the first user of `s` with at least as many points. */
  function Insert(u: LeaderboardUser, s: seq<LeaderboardUser>): (r: seq<LeaderboardUser>)
    requires SortedAscending(s)
    ensures SortedAscending(r)
    ensures multiset(r) == multiset(s) + multiset{u}
    ensures |r| == |s| + 1
    ensures r[0] == u || (|s| > 0 && r[0] == s[0])
  {
    if |s| == 0 then [u]
    else if u.points <= s[0].points then [u] + s
    else
      assert SortedAscending(s[1..]) by {
        forall i, j | 0 <= i < j < |s| - 1 ensures s[1..][i].points <= s[1..][j].points
        {
          assert s[1..][i] == s[i + 1] && s[1..][j] == s[j + 1];
        }
      }
      var rest := Insert(u, s[1..]);
      assert s == [s[0]] + s[1..];
      assert s[0].points <= rest[0].points;
      [s[0]] + rest
  }

  /** `[...leaderboardData].sort((a, b) => a.points - b.points)`: a new sequence in ascending
      order of points holding exactly the users of the input; the input is a value and stays
      as it was. */
  function SortAscending(users: seq<LeaderboardUser>): (r: seq<LeaderboardUser>)
    ensures SortedAscending(r)
    ensures multiset(r) == multiset(users)
    ensures |r| == |users|
  {
    if |users| == 0 then []
    else
      assert users == [users[0]] + users[1..];
      Insert(users[0], SortAscending(users[1..]))
  }

  /** `Math.max(...points)`, or 0 for no users. */
  function MaxPoints(s: seq<LeaderboardUser>): (m: int)
    ensures |s| == 0 ==> m == 0
    ensures |s| > 0 ==> exists k :: 0 <= k < |s| && s[k].points == m
    ensures forall k :: 0 <= k < |s| ==> s[k].points <= m
  {
    if |s| == 0 then 0
    else if |s| == 1 then s[0].points
    else
      var m := MaxPoints(s[1..]);
      assert forall k :: 1 <= k < |s| ==> s[k] == s[1..][k - 1];
      if s[0].points >= m then s[0].points else m
  }

  /** `Math.min(...points)`, or 0 for no users. */
  function MinPoints(s: seq<LeaderboardUser>): (m: int)
    ensures |s| == 0 ==> m == 0
    ensures |s| > 0 ==> exists k :: 0 <= k < |s| && s[k].points == m
    ensures forall k :: 0 <= k < |s| ==> s[k].points >= m
  {
    if |s| == 0 then 0
    else if |s| == 1 then s[0].points
    else
      var m := MinPoints(s[1..]);
      assert forall k :: 1 <= k < |s| ==> s[k] == s[1..][k - 1];
      if s[0].points <= m then s[0].points else m
  }

  /** Sorting does not change the extremes, and in the sorted copy they are the last and the
      first bar. */
  lemma {:induction false} ExtremesOfSorted(users: seq<LeaderboardUser>)
    requires |users| > 0
    ensures var s := SortAscending(users);
            MaxPoints(s) == MaxPoints(users) == s[|s| - 1].points
            && MinPoints(s) == MinPoints(users) == s[0].points
  {
    var s := SortAscending(users);
    SameUsersSameMax(s, users);
    SameUsersSameMin(s, users);
    SortedEnds(s);
  }

  lemma SortedEnds(s: seq<LeaderboardUser>)
    requires |s| > 0 && SortedAscending(s)
    ensures MaxPoints(s) == s[|s| - 1].points && MinPoints(s) == s[0].points
  {
    SortedMax(s);
    SortedMin(s);
  }

  lemma SortedMax(s: seq<LeaderboardUser>)
    requires |s| > 0 && SortedAscending(s)
    ensures MaxPoints(s) == s[|s| - 1].points
  {
    var i :| 0 <= i < |s| && s[i].points == MaxPoints(s);
    assert s[i].points <= s[|s| - 1].points;
  }

  lemma SortedMin(s: seq<LeaderboardUser>)
    requires |s| > 0 && SortedAscending(s)
    ensures MinPoints(s) == s[0].points
  {
    var j :| 0 <= j < |s| && s[j].points == MinPoints(s);
    assert s[0].points <= s[j].points;
  }

  lemma SameUsersSameMax(a: seq<LeaderboardUser>, b: seq<LeaderboardUser>)
    requires |a| > 0 && multiset(a) == multiset(b)
    ensures MaxPoints(a) == MaxPoints(b)
  {
    var i :| 0 <= i < |a| && a[i].points == MaxPoints(a);
    assert a[i] in multiset(b);
    var j :| 0 <= j < |b| && b[j].points == MaxPoints(b);
    assert b[j] in multiset(a);
  }

  lemma SameUsersSameMin(a: seq<LeaderboardUser>, b: seq<LeaderboardUser>)
    requires |a| > 0 && multiset(a) == multiset(b)
    ensures MinPoints(a) == MinPoints(b)
  {
    var i :| 0 <= i < |a| && a[i].points == MinPoints(a);
    assert a[i] in multiset(b);
    var j :| 0 <= j < |b| && b[j].points == MinPoints(b);
    assert b[j] in multiset(a);
  }

  /** The three bar colours: the highest, the lowest, and the others. */
  datatype Band = Top | Bottom | Middle

  function BandClass(b: Band): string
  {
    match b
    case Top => "bg-[#9ADD00] border-2 border-[#043F2E]"
    case Bottom => "bg-[#B4C197] border-2 border-[#043F2E]"
    case Middle => "bg-[#B5CF7C] border-2 border-[#043F2E]"
  }

  /** `getBarColors(points)`: a lone bar and the maximum are Top, then the minimum is Bottom,
      and everything else is Middle. */
  function BarBand(count: int, points: int, maxPoints: int, minPoints: int): (b: Band)
    ensures b == Top <==> count == 1 || points == maxPoints
    ensures b == Bottom <==> count != 1 && points != maxPoints && points == minPoints
  {
    if count == 1 then Top
    else if points == maxPoints then Top
    else if points == minPoints then Bottom
    else Middle
  }

  /** A bar: the user it stands for and its colour band. */
  datatype Bar = Bar(user: LeaderboardUser, band: Band)

  /** The bars of the board, in ascending order. */
  function Bars(users: seq<LeaderboardUser>): (bars: seq<Bar>)
    ensures var s := SortAscending(users);
            |bars| == |s| && forall k :: 0 <= k < |s| ==> (bars[k].user == s[k]
              && bars[k].band == BarBand(|s|, s[k].points, MaxPoints(s), MinPoints(s)))
  {
    var s := SortAscending(users);
    seq(|s|, k requires 0 <= k < |s| => Bar(s[k], BarBand(|s|, s[k].points, MaxPoints(s), MinPoints(s))))
  }

  /** When every user has the same points every bar is Top: the maximum wins the tie. */
  lemma {:induction false} AllEqualAllTop(users: seq<LeaderboardUser>)
    requires forall i, j :: 0 <= i < |users| && 0 <= j < |users| ==> users[i].points == users[j].points
    ensures forall k :: 0 <= k < |Bars(users)| ==> Bars(users)[k].band == Top
  {
    var s := SortAscending(users);
    if |users| > 0 {
      ExtremesOfSorted(users);
      forall k | 0 <= k < |s| ensures s[k].points == MaxPoints(s)
      {
        assert s[k] in multiset(users);
        assert s[|s| - 1] in multiset(users);
      }
    }
  }

  /** With at least two users, the last bar is Top, and the first is Bottom unless it ties
      with the maximum. */
  lemma {:induction false} EndsOfTheBoard(users: seq<LeaderboardUser>)
    requires |users| >= 2
    ensures var b := Bars(users);
            b[|b| - 1].band == Top
            && (b[0].user.points != MaxPoints(users) ==> b[0].band == Bottom)
  {
    ExtremesOfSorted(users);
  }

  /** The board's body: a skeleton while loading, then the error with a retry, then the
      empty message, then the bars. */
  datatype BoardView = LoadingSkeleton | ErrorPanel(message: string) | EmptyMessage | BarChart(bars: seq<Bar>)

  function Board(isLoading: bool, error: Option<string>, users: seq<LeaderboardUser>): (v: BoardView)
    ensures isLoading ==> v == LoadingSkeleton
    ensures !isLoading && error.Some? && error.value != "" ==> v == ErrorPanel(error.value)
    ensures !isLoading && (error.None? || error.value == "") && |users| == 0 ==> v == EmptyMessage
    ensures !isLoading && (error.None? || error.value == "") && |users| > 0 ==> v == BarChart(Bars(users))
    ensures v.BarChart? ==> v.bars == Bars(users) && |v.bars| == |users| > 0
  {
    if isLoading then LoadingSkeleton
    else if error.Some? && error.value != "" then ErrorPanel(error.value)
    else if |SortAscending(users)| == 0 then EmptyMessage
    else BarChart(Bars(users))
  }

  /** The "previous" button is disabled while loading, the "next" button also when
      `canGoNext` is false: the same conditions under which the dashboard's handlers leave the
      cursor where it is (Dashboard.PreviousButtonMatchesHandler, NextButtonMatchesHandler). */
  function PreviousDisabled(isLoading: bool): bool { isLoading }

  function NextDisabled(isLoading: bool, canGoNext: bool): (d: bool)
    ensures !d <==> !isLoading && canGoNext
  {
    isLoading || !canGoNext
  }
}
