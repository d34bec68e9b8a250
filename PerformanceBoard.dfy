/** The leaderboard action: the three shapes the points endpoint may answer with, the
    in-place descending sort of the results, and the mapping of each result to a displayed
    user, with a fallback when the user's details cannot be fetched. */
module PerformanceBoard {
  import opened Common
  import opened Strings

  /** A result of the points endpoint; `points` may be missing. */
  datatype LeaderboardItem = LeaderboardItem(user: int, points: Option<int>)

  /** `item.points || 0`: missing or zero points count as 0. */
  function PointsOrZero(item: LeaderboardItem): int
  {
    if item.points.Some? then item.points.value else 0
  }

  /** The decoded body: an array of results, or an object that may carry an array `results`
      and may itself be a result (it has both `user` and `points`). */
  datatype ApiResponse =
    | ArrayBody(items: seq<LeaderboardItem>)
    | ObjectBody(results: Option<seq<LeaderboardItem>>, asItem: Option<LeaderboardItem>)

  /** The results of a body: the array, else the object's `results` array, else the object
      itself as the only result, else none. */
  function NormaliseResults(data: ApiResponse): (r: seq<LeaderboardItem>)
    ensures data.ArrayBody? ==> r == data.items
    ensures data.ObjectBody? && data.results.Some? ==> r == data.results.value
    ensures data.ObjectBody? && data.results.None? && data.asItem.Some? ==> r == [data.asItem.value]
    ensures data.ObjectBody? && data.results.None? && data.asItem.None? ==> r == []
  {
    match data
    case ArrayBody(items) => items
    case ObjectBody(results, asItem) =>
      if results.Some? then results.value
      else if asItem.Some? then [asItem.value]
      else []
  }

  predicate SortedDescending(s: seq<LeaderboardItem>)
  {
    forall i, j :: 0 <= i < j < |s| ==> PointsOrZero(s[i]) >= PointsOrZero(s[j])
  }

  /** `results.sort((a, b) => (b.points || 0) - (a.points || 0))` on the array itself: an
      insertion sort by adjacent swaps, which, like the engine's sort, never swaps two
      results with equal points. */
  method SortDescending(a: array<LeaderboardItem>)
    modifies a
    ensures SortedDescending(a[..])
    ensures multiset(a[..]) == multiset(old(a[..]))
  {
    if a.Length == 0 {
      return;
    }
    var i := 1;
    while i < a.Length
      invariant 1 <= i <= a.Length
      invariant forall p, q :: 0 <= p < q < i ==> PointsOrZero(a[p]) >= PointsOrZero(a[q])
      invariant multiset(a[..]) == multiset(old(a[..]))
    {
      var j := i;
      while j > 0 && PointsOrZero(a[j - 1]) < PointsOrZero(a[j])
        invariant 0 <= j <= i
        invariant multiset(a[..]) == multiset(old(a[..]))
        invariant forall p, q :: 0 <= p < q <= i && p != j && q != j ==> PointsOrZero(a[p]) >= PointsOrZero(a[q])
        invariant forall q :: j < q <= i ==> PointsOrZero(a[j]) > PointsOrZero(a[q])
      {
        SwapDown(a, j);
        j := j - 1;
      }
      i := i + 1;
    }
    assert forall p, q :: 0 <= p < q < a.Length ==> a[..][p] == a[p] && a[..][q] == a[q];
  }

  /** Exchanges `a[j - 1]` and `a[j]`. */
  method SwapDown(a: array<LeaderboardItem>, j: int)
    requires 0 < j < a.Length
    modifies a
    ensures a[j - 1] == old(a[j]) && a[j] == old(a[j - 1])
    ensures forall k :: 0 <= k < a.Length && k != j - 1 && k != j ==> a[k] == old(a[k])
    ensures multiset(a[..]) == multiset(old(a[..]))
  {
    a[j - 1], a[j] := a[j], a[j - 1];
  }

  /** The user record of the details endpoint. */
  datatype ApiUser = ApiUser(id: int, username: string, firstName: string, lastName: string,
                             email: string, groups: Option<seq<string>>)

  /** `${first_name} ${last_name}`. */
  function DisplayName(first: string, last: string): (name: string)
    ensures |name| == |first| + 1 + |last|
    ensures name[..|first|] == first && name[|first|] == ' ' && name[|first| + 1..] == last
  {
    first + " " + last
  }

  /** The user part of a successful `getUserDetails`. */
  datatype UserDetails = UserDetails(id: int, name: string, username: string, email: string,
                                     groups: Option<seq<string>>)

  datatype DetailsResult = DetailsResult(success: bool, user: Option<UserDetails>, error: Option<string>)

  /** The details endpoint's answer: a failed response, or the decoded user. */
  datatype DetailsReply = DetailsFailed | DetailsBody(user: ApiUser)

  const DetailsFailedMessage: string := "Failed to fetch user details"

  /** `getUserDetails`: no access cookie and a failed response give no user and their
      message; otherwise the user with first and last name joined by a space. */
  function GetUserDetails(hasAccess: bool, reply: DetailsReply): (r: DetailsResult)
    ensures r.success <==> r.user.Some?
    ensures r.success <==> hasAccess && reply.DetailsBody?
    ensures !hasAccess ==> r.error == Some(NoAccessTokenMessage)
    ensures hasAccess && reply.DetailsFailed? ==> r.error == Some(DetailsFailedMessage)
    ensures r.success ==> var u := reply.user; var d := r.user.value;
              d.id == u.id && d.username == u.username && d.email == u.email && d.groups == u.groups
              && d.name == DisplayName(u.firstName, u.lastName)
  {
    if !hasAccess then DetailsResult(false, None, Some(NoAccessTokenMessage))
    else if reply.DetailsFailed? then DetailsResult(false, None, Some(DetailsFailedMessage))
    else
      var u := reply.user;
      DetailsResult(true, Some(UserDetails(u.id, DisplayName(u.firstName, u.lastName), u.username, u.email, u.groups)),
                    None)
  }

  /** An entry of the displayed leaderboard. */
  datatype MappedUser = MappedUser(id: int, name: string, username: string, points: int, groups: seq<string>)

  const FallbackName: string := "مستخدم"

  /** One result with what `getUserDetails` answered for its user: the details' fields when
      it succeeded with a user, else the user id with a placeholder name, no username and no
      groups. */
  function MapItem(item: LeaderboardItem, res: DetailsResult): (m: MappedUser)
    ensures m.points == PointsOrZero(item)
    ensures res.success && res.user.Some? ==>
              var d := res.user.value;
              m.id == d.id && m.name == d.name && m.username == d.username
              && m.groups == (if d.groups.Some? then d.groups.value else [])
    ensures !(res.success && res.user.Some?) ==> m == MappedUser(item.user, FallbackName, "", PointsOrZero(item), [])
  {
    if res.success && res.user.Some? then
      var d := res.user.value;
      MappedUser(d.id, d.name, d.username, PointsOrZero(item), if d.groups.Some? then d.groups.value else [])
    else MappedUser(item.user, FallbackName, "", PointsOrZero(item), [])
  }

  /** `Promise.all(sortedResults.map(...))` as an order-preserving map; `details` is what
      `getUserDetails` answers for each user id. */
  function MapLeaderboard(items: seq<LeaderboardItem>, details: int -> DetailsResult): (r: seq<MappedUser>)
    ensures |r| == |items|
    ensures forall k :: 0 <= k < |items| ==> r[k] == MapItem(items[k], details(items[k].user))
  {
    if |items| == 0 then []
    else [MapItem(items[0], details(items[0].user))] + MapLeaderboard(items[1..], details)
  }

  /** The displayed leaderboard of sorted results is in descending order of points too, and
      every entry whose details could not be fetched names its user by id. */
  lemma {:induction false} MappedKeepsOrder(items: seq<LeaderboardItem>, details: int -> DetailsResult)
    requires SortedDescending(items)
    ensures var r := MapLeaderboard(items, details);
            (forall i, j :: 0 <= i < j < |r| ==> r[i].points >= r[j].points)
            && (forall k :: 0 <= k < |r| && !details(items[k].user).success ==> r[k].id == items[k].user)
  {
    var r := MapLeaderboard(items, details);
    forall i, j | 0 <= i < j < |r| ensures r[i].points >= r[j].points
    {
      assert r[i].points == PointsOrZero(items[i]) && r[j].points == PointsOrZero(items[j]);
    }
  }

  /** Whatever order the sort leaves equal points in, the first displayed entry has the
      highest points of all results and the last the lowest. */
  lemma {:induction false} BoardEnds(s: seq<LeaderboardItem>, results: seq<LeaderboardItem>,
                                     details: int -> DetailsResult)
    requires SortedDescending(s) && multiset(s) == multiset(results) && |results| > 0
    ensures var r := MapLeaderboard(s, details);
            |r| == |results|
            && forall k :: 0 <= k < |results| ==> r[0].points >= PointsOrZero(results[k]) >= r[|r| - 1].points
  {
    assert |s| == |multiset(s)| == |results|;
    forall k | 0 <= k < |results|
      ensures PointsOrZero(s[0]) >= PointsOrZero(results[k]) >= PointsOrZero(s[|s| - 1])
    {
      assert results[k] in multiset(s);
      var m :| 0 <= m < |s| && s[m] == results[k];
    }
  }

  /** The endpoint's answer: a failed response with its status and text, or a decoded body. */
  datatype PointsReply = Failed(status: int, text: string) | Body(data: ApiResponse)

  datatype LeaderboardResult = LeaderboardResult(success: bool, data: seq<MappedUser>, error: Option<string>)

  const NoAccessTokenMessage: string := "No access token found"

  /** `getLeaderboardData`: no access cookie and a failed response are errors; otherwise the
      normalised results, sorted in descending order of points, each mapped with its user's
      details. */
  method GetLeaderboardData(hasAccess: bool, reply: PointsReply, details: int -> DetailsResult)
    returns (r: LeaderboardResult)
    ensures r.success <==> hasAccess && reply.Body?
    ensures !hasAccess ==> r == LeaderboardResult(false, [], Some(NoAccessTokenMessage))
    ensures hasAccess && reply.Failed? ==>
              r == LeaderboardResult(false, [], Some("Failed to fetch leaderboard data: " + IntToString(reply.status)
                                                     + " - " + reply.text))
    ensures r.success ==> r.error.None?
    ensures r.success ==> exists s :: SortedDescending(s) && multiset(s) == multiset(NormaliseResults(reply.data))
                                      && r.data == MapLeaderboard(s, details)
  {
    if !hasAccess {
      return LeaderboardResult(false, [], Some(NoAccessTokenMessage));
    }
    if reply.Failed? {
      return LeaderboardResult(false, [], Some("Failed to fetch leaderboard data: " + IntToString(reply.status)
                                               + " - " + reply.text));
    }
    var results := NormaliseResults(reply.data);
    if |results| == 0 {
      assert SortedDescending(results) && MapLeaderboard(results, details) == [];
      return LeaderboardResult(true, [], None);
    }
    var a := new LeaderboardItem[|results|](k requires 0 <= k < |results| => results[k]);
    assert a[..] == results;
    SortDescending(a);
    r := LeaderboardResult(true, MapLeaderboard(a[..], details), None);
  }
}
