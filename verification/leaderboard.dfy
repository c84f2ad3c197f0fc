/** The leaderboard route `app/api/leaderboard/route.ts`: the day's board
    of finished games or the all-time board of players' statistics, sorted,
    cut to `limit` entries and numbered from 1, with the signed-in player's
    rank in the whole sorted list. The database, the user and the profile
    names are parameters. */
module Leaderboard {
  import opened Wrappers
  import opened Seqs
  import opened Strings
  import opened StableSort
  import opened SolvedDistribution
  import opened LeaderboardSort
  import opened DemoMode

  /** `Math.min(100, parseInt(param || "50", 10))`; `None` is `NaN`. */
  function Limit(param: Option<string>): (limit: Option<int>)
    ensures limit.Some? ==> limit.value <= 100
    ensures param.None? || param == Some("") ==> limit == Some(50)
    ensures limit.None? <==> ParseInt(param.GetOr("")).None? && param.GetOr("") != []
  {
    var text := if param.GetOr("") == [] then "50" else param.value;
    ParseInt50();
    match ParseInt(text)
    case None => None
    case Some(n) => Some(if n < 100 then n else 100)
  }

  lemma ParseInt50()
    ensures ParseInt("50") == Some(50)
  {
    var s := "50";
    ParseIntPair(s);
  }

  /** How `limit` is applied: as the route does, or clamped to [0, 100]. */
  datatype LimitRule = AsWritten | Clamped

  /** `Limit` with a negative value raised to 0 under the clamped rule. */
  function EffectiveLimit(rule: LimitRule, param: Option<string>): (limit: Option<int>)
    ensures rule == Clamped && limit.Some? ==> 0 <= limit.value <= 100
    ensures rule == AsWritten ==> limit == Limit(param)
  {
    match Limit(param)
    case None => None
    case Some(n) => if rule == Clamped && n < 0 then Some(0) else Some(n)
  }

  /** An entry with its 1-based place. */
  datatype Ranked<T> = Ranked(rank: nat, row: T)

  /** `sorted.map((s, i) => ({ rank: i + 1, … }))`. */
  function Numbered<T>(s: seq<T>): (r: seq<Ranked<T>>)
    ensures |r| == |s|
    ensures forall i :: 0 <= i < |r| ==> r[i] == Ranked(i + 1, s[i])
  {
    seq(|s|, i requires 0 <= i < |s| => Ranked(i + 1, s[i]))
  }

  /** `(sorted.findIndex((s) => s.user_id === user.id) + 1) || undefined`. */
  function UserRank<T>(sorted: seq<T>, isUser: T -> bool): (rank: Option<nat>)
    ensures rank.Some? ==>
              && 1 <= rank.value <= |sorted| && isUser(sorted[rank.value - 1])
              && forall k :: 0 <= k < rank.value - 1 ==> !isUser(sorted[k])
    ensures rank.None? <==> forall k :: 0 <= k < |sorted| ==> !isUser(sorted[k])
  {
    match FindIndex(sorted, isUser)
    case None => None
    case Some(k) => Some(k + 1)
  }

  /** The rank is at most the place of any row of the user, and is that
      place when no other row is the user's. */
  lemma UserRankAtMost<T>(sorted: seq<T>, isUser: T -> bool, i: nat)
    requires i < |sorted| && isUser(sorted[i])
    ensures UserRank(sorted, isUser).Some? && UserRank(sorted, isUser).value <= i + 1
    ensures (forall j :: 0 <= j < |sorted| && j != i ==> !isUser(sorted[j])) ==>
              UserRank(sorted, isUser) == Some(i + 1)
  {
  }

  // ---------------------------------------------------------------------
  // All-time board
  // ---------------------------------------------------------------------

  /** A `user_stats` row as the board reads it. */
  datatype StatsRow = StatsRow(userId: string, totalGames: Option<int>, dist: Option<Dist>,
                               averagePercentDiff: Option<real>, totalScore: int)

  function Wins(r: StatsRow): int {
    CountWins(r.dist)
  }

  /** `getAvgGuesses(s) || 999`: no average (0) counts as 999. */
  function AvgOr999(r: StatsRow): (a: real)
    ensures a != 0.0
  {
    var avg := AverageGuesses(r.dist);
    if avg == 0.0 then 999.0 else avg
  }

  /** `s.average_percent_diff ?? 999`. */
  function PercentDiffOr999(r: StatsRow): real {
    r.averagePercentDiff.GetOr(999.0)
  }

  /** Lexicographic comparison of three keys, the first descending. */
  function LexCompare(w1: int, w2: int, a1: real, a2: real, d1: real, d2: real): (c: real)
    ensures w1 != w2 ==> (c <= 0.0 <==> w1 > w2)
    ensures w1 == w2 && a1 != a2 ==> (c <= 0.0 <==> a1 < a2)
    ensures w1 == w2 && a1 == a2 ==> (c <= 0.0 <==> d1 <= d2)
  {
    if w2 != w1 then (w2 - w1) as real
    else if a1 != a2 then a1 - a2
    else d1 - d2
  }

  /** The all-time comparator's return value. */
  function AllTimeCompare(a: StatsRow, b: StatsRow): real {
    LexCompare(Wins(a), Wins(b), AvgOr999(a), AvgOr999(b), PercentDiffOr999(a), PercentDiffOr999(b))
  }

  predicate AllTimeLe(a: StatsRow, b: StatsRow) {
    AllTimeCompare(a, b) <= 0.0
  }

  /** More wins first; then the lower average number of guesses, with no
      average counting as 999; then the lower average error. */
  lemma AllTimeOrder(a: StatsRow, b: StatsRow)
    ensures AllTimeLe(a, b) <==>
              || Wins(a) > Wins(b)
              || (Wins(a) == Wins(b) && AvgOr999(a) < AvgOr999(b))
              || (Wins(a) == Wins(b) && AvgOr999(a) == AvgOr999(b) && PercentDiffOr999(a) <= PercentDiffOr999(b))
  {
  }

  /** The all-time comparator is consistent. */
  lemma AllTimeLeIsPreorder()
    ensures TotalPreorder(AllTimeLe)
  {
    forall a, b ensures AllTimeLe(a, b) || AllTimeLe(b, a) {
      AllTimeOrder(a, b);
      AllTimeOrder(b, a);
    }
    forall a, b, c | AllTimeLe(a, b) && AllTimeLe(b, c) ensures AllTimeLe(a, c) {
      AllTimeOrder(a, b);
      AllTimeOrder(b, c);
      AllTimeOrder(a, c);
    }
  }

  /** `(s.total_games ?? 0) > 0`. */
  predicate HasPlayed(r: StatsRow) {
    r.totalGames.GetOr(0) > 0
  }

  /** The filtered and sorted statistics, before the cut. */
  function AllTimeSorted(rows: seq<StatsRow>): (sorted: seq<StatsRow>)
    ensures multiset(sorted) == multiset(Filter(rows, HasPlayed))
    ensures forall r :: r in sorted <==> r in rows && HasPlayed(r)
    ensures Sorted(sorted, AllTimeLe)
  {
    AllTimeLeIsPreorder();
    SortSorted(Filter(rows, HasPlayed), AllTimeLe);
    var sorted := Sort(Filter(rows, HasPlayed), AllTimeLe);
    assert forall r :: r in sorted <==> r in multiset(Filter(rows, HasPlayed));
    sorted
  }

  // ---------------------------------------------------------------------
  // The route
  // ---------------------------------------------------------------------

  /** One returned row: the all-time columns or the daily ones. */
  datatype Entry =
    | AllTimeEntry(rank: nat, userId: string, username: string, wins: int, totalGames: Option<int>,
                   averageGuesses: real, averagePercentDiff: real, totalScore: int)
    | DailyRow(rank: nat, userId: string, username: string, isSolved: bool, guessesUsed: int,
               time: real, percentDiff: real)

  /** `p ? p.nickname : \`Player ${String(user_id).slice(0, 8)}\``. */
  function DisplayName(nickname: Option<string>, userId: string): string {
    match nickname
    case Some(n) => n
    case None => "Player " + Take(userId, 8)
  }

  function AllTimeEntryOf(r: Ranked<StatsRow>, nickname: string -> Option<string>): Entry {
    AllTimeEntry(r.rank, r.row.userId, DisplayName(nickname(r.row.userId), r.row.userId), Wins(r.row),
                 r.row.totalGames, AverageGuesses(r.row.dist), r.row.averagePercentDiff.GetOr(0.0),
                 r.row.totalScore)
  }

  function DailyEntryOf(r: Ranked<DailyEntry>, nickname: string -> Option<string>): Entry {
    DailyRow(r.rank, r.row.userId, DisplayName(nickname(r.row.userId), r.row.userId), r.row.isSolved,
             r.row.guessesUsed, r.row.time, r.row.percentDiff.GetOr(0.0))
  }

  function MapEntries<T>(rows: seq<Ranked<T>>, f: Ranked<T> -> Entry): (es: seq<Entry>)
    ensures |es| == |rows| && forall i :: 0 <= i < |rows| ==> es[i] == f(rows[i])
  {
    seq(|rows|, i requires 0 <= i < |rows| => f(rows[i]))
  }

  /** The board's response data. */
  datatype Listing = Listing(kind: string, entries: seq<Entry>, userRank: Option<nat>, isDemoMode: bool)

  datatype Response = ServiceUnavailable | Listed(listing: Listing)

  /** The server's view: the demo decision, whether the admin client could
      be created, the signed-in user, nicknames by user id, the statistics
      rows and the guesses of the current puzzle (`None` when there is no
      current date or no puzzle for it). */
  datatype BoardWorld = BoardWorld(
    useDemo: UseDemo, adminAvailable: bool, userId: Option<string>,
    nickname: string -> Option<string>, stats: seq<StatsRow>, today: Option<seq<DailyEntry>>)

  function IsUserStats(user: Option<string>): StatsRow -> bool {
    (r: StatsRow) => user.Some? && r.userId == user.value
  }

  function IsUserGame(user: Option<string>): DailyEntry -> bool {
    (e: DailyEntry) => user.Some? && e.userId == user.value
  }

  /** `entries` of the all-time board. */
  function AllTimeBoard(rows: seq<StatsRow>, limit: Option<int>, user: Option<string>,
                        nickname: string -> Option<string>): (l: Listing)
    ensures var sorted := AllTimeSorted(rows);
            && |l.entries| <= |sorted|
            && (limit.Some? && limit.value >= 0 ==> |l.entries| <= limit.value)
            && |l.entries| == |SliceTo(sorted, limit)|
            && (forall i :: 0 <= i < |l.entries| ==>
                  l.entries[i].AllTimeEntry? && l.entries[i].rank == i + 1 && l.entries[i].userId == sorted[i].userId)
            && (forall i :: 0 <= i < |l.entries| ==> l.entries[i] == AllTimeEntryOf(Ranked(i + 1, sorted[i]), nickname))
            && l.userRank == UserRank(sorted, IsUserStats(user))
            && l.kind == "alltime" && !l.isDemoMode
  {
    var sorted := AllTimeSorted(rows);
    var cut := SliceTo(sorted, limit);
    Listing("alltime", MapEntries(Numbered(cut), (r: Ranked<StatsRow>) => AllTimeEntryOf(r, nickname)),
            UserRank(sorted, IsUserStats(user)), false)
  }

  /** The day's finished games, sorted. */
  function DailySorted(games: seq<DailyEntry>): (sorted: seq<DailyEntry>)
    ensures multiset(sorted) == multiset(Filter(games, (e: DailyEntry) => e.guessesUsed > 0))
    ensures forall e :: e in sorted <==> e in games && e.guessesUsed > 0
    ensures Sorted(sorted, DailyLe)
  {
    var completed := Filter(games, (e: DailyEntry) => e.guessesUsed > 0);
    var sorted := SortDailyLeaderboard(completed);
    assert forall e :: e in sorted <==> e in multiset(completed);
    sorted
  }

  /** `entries` of the daily board. */
  function DailyBoard(games: seq<DailyEntry>, limit: Option<int>, user: Option<string>,
                      nickname: string -> Option<string>): (l: Listing)
    ensures var sorted := DailySorted(games);
            && |l.entries| <= |sorted|
            && (limit.Some? && limit.value >= 0 ==> |l.entries| <= limit.value)
            && |l.entries| == |SliceTo(sorted, limit)|
            && (forall i :: 0 <= i < |l.entries| ==>
                  l.entries[i] == DailyEntryOf(Ranked(i + 1, sorted[i]), nickname) && sorted[i].guessesUsed > 0)
            && l.userRank == UserRank(sorted, IsUserGame(user))
            && l.kind == "daily" && !l.isDemoMode
  {
    var sorted := DailySorted(games);
    var cut := SliceTo(sorted, limit);
    var rows := DailyRows(cut, nickname);
    assert forall i :: 0 <= i < |rows| ==>
             rows[i] == DailyEntryOf(Ranked(i + 1, sorted[i]), nickname) && sorted[i] in sorted;
    Listing("daily", rows, UserRank(sorted, IsUserGame(user)), false)
  }

  /** The rows of the daily board for the games kept, numbered from 1. */
  function DailyRows(cut: seq<DailyEntry>, nickname: string -> Option<string>): (es: seq<Entry>)
    ensures |es| == |cut|
    ensures forall i :: 0 <= i < |es| ==>
              es[i].DailyRow? && es[i].rank == i + 1 && es[i].userId == cut[i].userId
              && es[i].guessesUsed == cut[i].guessesUsed
    ensures forall i :: 0 <= i < |es| ==> es[i] == DailyEntryOf(Ranked(i + 1, cut[i]), nickname)
  {
    MapEntries(Numbered(cut), (r: Ranked<DailyEntry>) => DailyEntryOf(r, nickname))
  }

  /** `GET(request)` with the `type` and `limit` query parameters. */
  function Handle(rule: LimitRule, kindParam: Option<string>, limitParam: Option<string>,
                  world: BoardWorld): (r: Response)
    ensures r.ServiceUnavailable? <==> world.useDemo == Fail
    ensures r.Listed? ==> (r.listing.isDemoMode <==> world.useDemo == Decided(true) || !world.adminAvailable)
    ensures r.Listed? && r.listing.isDemoMode ==> r.listing.entries == [] && r.listing.userRank.None?
    ensures var limit := EffectiveLimit(rule, limitParam);
            r.Listed? && !r.listing.isDemoMode && kindParam == Some("alltime") ==>
              r.listing == AllTimeBoard(world.stats, limit, world.userId, world.nickname)
    ensures var limit := EffectiveLimit(rule, limitParam);
            r.Listed? && !r.listing.isDemoMode && kindParam != Some("alltime") ==>
              r.listing == match world.today
                           case None => Listing("daily", [], None, false)
                           case Some(games) => DailyBoard(games, limit, world.userId, world.nickname)
    ensures r.Listed? && !r.listing.isDemoMode ==>
              forall i :: 0 <= i < |r.listing.entries| ==> r.listing.entries[i].rank == i + 1
    ensures var limit := EffectiveLimit(rule, limitParam);
            r.Listed? && !r.listing.isDemoMode && limit.Some? && limit.value >= 0 ==>
              |r.listing.entries| <= limit.value
  {
    var kind := if kindParam.GetOr("") == [] then "daily" else kindParam.value;
    var limit := EffectiveLimit(rule, limitParam);
    if world.useDemo == Fail then ServiceUnavailable
    else if world.useDemo == Decided(true) || !world.adminAvailable then Listed(Listing(kind, [], None, true))
    else if kind == "alltime" then Listed(AllTimeBoard(world.stats, limit, world.userId, world.nickname))
    else match world.today
      case None => Listed(Listing("daily", [], None, false))
      case Some(games) => Listed(DailyBoard(games, limit, world.userId, world.nickname))
  }

  /** The signed-in player's rank is at most the place of any row of theirs
      on the daily board, and equals it when each player has one row. */
  lemma DailyRankMatchesRow(games: seq<DailyEntry>, limit: Option<int>, user: string,
                            nickname: string -> Option<string>, i: nat)
    requires var l := DailyBoard(games, limit, Some(user), nickname);
             i < |l.entries| && l.entries[i].userId == user
    ensures var l := DailyBoard(games, limit, Some(user), nickname);
            l.userRank.Some? && l.userRank.value <= i + 1
    ensures var l := DailyBoard(games, limit, Some(user), nickname);
            var sorted := DailySorted(games);
            (forall j, k :: 0 <= j < k < |sorted| ==> sorted[j].userId != sorted[k].userId) ==>
              l.userRank == Some(i + 1)
  {
    var sorted := DailySorted(games);
    var isUser := IsUserGame(Some(user));
    assert isUser(sorted[i]);
    UserRankAtMost(sorted, isUser, i);
    if forall j, k :: 0 <= j < k < |sorted| ==> sorted[j].userId != sorted[k].userId {
      forall j | 0 <= j < |sorted| && j != i
        ensures !isUser(sorted[j])
      {
        if j < i {
          assert sorted[j].userId != sorted[i].userId;
        } else {
          assert sorted[i].userId != sorted[j].userId;
        }
      }
    }
  }

  /** Under the route's rule `?limit=-1` drops only the last finished game,
      so a day with more than 101 of them lists more than the cap of 100. */
  lemma AsWrittenNegativeLimitOverflows(games: seq<DailyEntry>, world: BoardWorld)
    requires world.useDemo == Decided(false) && world.adminAvailable && world.today == Some(games)
    requires |DailySorted(games)| > 101
    ensures var r := Handle(AsWritten, None, Some("-1"), world);
            r.Listed? && |r.listing.entries| == |DailySorted(games)| - 1 > 100
  {
    LimitMinusOne();
    var sorted := DailySorted(games);
    var l := DailyBoard(games, Some(-1), world.userId, world.nickname);
    assert |l.entries| == |SliceTo(sorted, Some(-1))| == |sorted| - 1;
    assert Handle(AsWritten, None, Some("-1"), world) == Listed(l);
  }

  lemma LimitMinusOne()
    ensures Limit(Some("-1")) == Some(-1)
  {
    ParseIntOfIntToString(-1);
    assert IntToString(-1) == "-1" by {
      assert NatToString(1) == [DigitChar(1)];
    }
  }

  /** With the limit clamped to [0, 100] no request lists more than 100
      rows; a negative limit lists none. */
  lemma ClampedLimitBounded(kindParam: Option<string>, limitParam: Option<string>, world: BoardWorld)
    requires Limit(limitParam).Some?
    ensures var r := Handle(Clamped, kindParam, limitParam, world);
            r.Listed? ==> |r.listing.entries| <= 100
    ensures var r := Handle(Clamped, kindParam, limitParam, world);
            r.Listed? && Limit(limitParam).value < 0 ==> r.listing.entries == []
  {
    var limit := EffectiveLimit(Clamped, limitParam);
    assert limit.Some? && 0 <= limit.value <= 100;
    assert Limit(limitParam).value < 0 ==> limit.value == 0;
    var r := Handle(Clamped, kindParam, limitParam, world);
    if r.Listed? {
      if r.listing.isDemoMode {
        assert r.listing.entries == [];
      } else {
        assert |r.listing.entries| <= limit.value;
      }
    }
  }
}
