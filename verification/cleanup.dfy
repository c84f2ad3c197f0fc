/** The launch clean-up script `scripts/cleanup-for-launch.ts`: it deletes
    the test accounts, deletes the kept players' games of any puzzle but
    today's, and recomputes each kept player's statistics from the games
    left. The database, the clock and the console are parameters or left
    out; every deletion is taken to succeed. */
module Cleanup {
  import opened Wrappers
  import opened Seqs
  import opened Strings
  import opened StableSort
  import opened SolvedDistribution

  /** The nicknames of the test accounts, in lower case. */
  const TEST_NICKNAMES: seq<string> := ["slopke", "guygir_2", "num2", "num3", "asfasdfa", "sdlgkjsdlkgj"]

  /** A `profiles` row. */
  datatype Profile = Profile(userId: string, nickname: string)

  /** `TEST_NICKNAMES.includes(p.nickname.toLowerCase())`. */
  predicate IsTestAccount(p: Profile) {
    ToLowerAscii(p.nickname) in TEST_NICKNAMES
  }

  predicate IsKept(p: Profile) {
    !IsTestAccount(p)
  }

  function UserIds(ps: seq<Profile>): (ids: seq<string>)
    ensures |ids| == |ps| && forall i :: 0 <= i < |ps| ==> ids[i] == ps[i].userId
  {
    seq(|ps|, i requires 0 <= i < |ps| => ps[i].userId)
  }

  /** `testUserIds`. */
  function TestUserIds(ps: seq<Profile>): seq<string> {
    UserIds(Filter(ps, IsTestAccount))
  }

  /** `keepUserIds`. */
  function KeepUserIds(ps: seq<Profile>): seq<string> {
    UserIds(Filter(ps, IsKept))
  }

  /** The ids of the profiles satisfying `keep` are those of some such
      profile. */
  lemma FilteredIds(ps: seq<Profile>, keep: Profile -> bool, id: string)
    ensures id in UserIds(Filter(ps, keep)) <==> exists p :: p in ps && p.userId == id && keep(p)
  {
    var f := Filter(ps, keep);
    if id in UserIds(f) {
      var i :| 0 <= i < |f| && f[i].userId == id;
      assert f[i] in f;
    }
    if exists p :: p in ps && p.userId == id && keep(p) {
      var p :| p in ps && p.userId == id && keep(p);
      var i :| 0 <= i < |f| && f[i] == p;
      assert UserIds(f)[i] == id;
    }
  }

  /** The profiles split into test and kept accounts: every profile lands on
      exactly one side by its nickname. */
  lemma SplitProfiles(ps: seq<Profile>, id: string)
    ensures |TestUserIds(ps)| + |KeepUserIds(ps)| == |ps|
    ensures id in TestUserIds(ps) <==> exists p :: p in ps && p.userId == id && IsTestAccount(p)
    ensures id in KeepUserIds(ps) <==> exists p :: p in ps && p.userId == id && !IsTestAccount(p)
  {
    FilterPartition(ps, IsTestAccount, IsKept);
    assert |multiset(Filter(ps, IsTestAccount))| + |multiset(Filter(ps, IsKept))| == |multiset(ps)|;
    FilteredIds(ps, IsTestAccount, id);
    FilteredIds(ps, IsKept, id);
  }

  /** When each user has one profile, no user is both deleted and kept. */
  lemma TestAndKeptDisjoint(ps: seq<Profile>, id: string)
    requires forall i, j :: 0 <= i < j < |ps| ==> ps[i].userId != ps[j].userId
    ensures !(id in TestUserIds(ps) && id in KeepUserIds(ps))
  {
    FilteredIds(ps, IsTestAccount, id);
    FilteredIds(ps, IsKept, id);
  }

  /** For every nickname: a test account is one whose lower-cased nickname
      is listed, and lower-casing the nickname first changes nothing. */
  lemma TestAccountIgnoresCase(id: string, nickname: string)
    ensures IsTestAccount(Profile(id, nickname)) <==> IsTestAccount(Profile(id, ToLowerAscii(nickname)))
  {
    ToLowerAsciiIdempotent(nickname);
  }

  /** The match ignores case: two examples. */
  lemma TestNicknameIgnoresCase(id: string)
    ensures IsTestAccount(Profile(id, "Num2"))
    ensures !IsTestAccount(Profile(id, "num22"))
  {
    CapitalisedNicknameMatches(id);
    LongerNicknameMisses(id);
  }

  lemma CapitalisedNicknameMatches(id: string)
    ensures IsTestAccount(Profile(id, "Num2"))
  {
    assert ToLowerAscii("Num2") == "num2";
    assert TEST_NICKNAMES[2] == "num2";
  }

  /** No listed nickname has five letters. */
  lemma LongerNicknameMisses(id: string)
    ensures !IsTestAccount(Profile(id, "num22"))
  {
    assert |ToLowerAscii("num22")| == 5;
    var t := TEST_NICKNAMES;
    assert |t| == 6 && |t[0]| == 6 && |t[1]| == 8 && |t[2]| == 4 && |t[3]| == 4 && |t[4]| == 8 && |t[5]| == 12;
  }

  // ---------------------------------------------------------------------
  // Stale games
  // ---------------------------------------------------------------------

  /** A `guesses` row: one player's game of one puzzle. */
  datatype Game = Game(id: string, userId: string, puzzleId: string, guessesUsed: int, isSolved: bool,
                       totalScore: Option<int>, percentDiff: Option<real>)

  function OfUsers(ids: seq<string>): Game -> bool {
    (g: Game) => g.userId in ids
  }

  function OfUser(id: string): Game -> bool {
    (g: Game) => g.userId == id
  }

  function OnPuzzles(ids: seq<string>): Game -> bool {
    (g: Game) => g.puzzleId in ids
  }

  function NotOnPuzzles(ids: seq<string>): Game -> bool {
    (g: Game) => g.puzzleId !in ids
  }

  /** `toDelete`: the given games whose puzzle is not one of today's. */
  function StaleGames(games: seq<Game>, todayIds: seq<string>): (stale: seq<Game>)
    ensures forall g :: g in stale <==> g in games && g.puzzleId !in todayIds
  {
    Filter(games, NotOnPuzzles(todayIds))
  }

  /** The games that survive the deletion. */
  function RemainingGames(games: seq<Game>, todayIds: seq<string>): (rest: seq<Game>)
    ensures forall g :: g in rest <==> g in games && g.puzzleId in todayIds
  {
    Filter(games, OnPuzzles(todayIds))
  }

  /** Every game is either deleted or kept, never both. */
  lemma StaleAndRemainingPartition(games: seq<Game>, todayIds: seq<string>)
    ensures multiset(StaleGames(games, todayIds)) + multiset(RemainingGames(games, todayIds)) == multiset(games)
  {
    FilterPartition(games, NotOnPuzzles(todayIds), OnPuzzles(todayIds));
  }

  // ---------------------------------------------------------------------
  // Recomputing the statistics
  // ---------------------------------------------------------------------

  /** The loop variables of the recompute. */
  datatype Tally = Tally(dist: Dist, failed: nat, totalScore: int, totalPercentDiff: real,
                         lastDate: string, currentStreak: nat, maxStreak: nat)

  const START: Tally := Tally([], 0, 0, 0.0, "", 0, 0)

  /** `pidToDate[g.puzzle_id] ?? ""`. */
  function DateOf(dates: string -> Option<string>, g: Game): string {
    dates(g.puzzleId).GetOr("")
  }

  function ScoreOf(g: Game): int {
    g.totalScore.GetOr(0)
  }

  function DiffOf(g: Game): real {
    g.percentDiff.GetOr(0.0)
  }

  predicate Won(g: Game) {
    g.isSolved
  }

  predicate Lost(g: Game) {
    !g.isSolved
  }

  /** One pass of `for (const g of sorted)`. */
  function Step(t: Tally, g: Game, date: string, yesterday: string): Tally {
    var t1 :=
      if g.isSolved then
        var streak := if t.lastDate == yesterday then t.currentStreak + 1 else 1;
        t.(dist := IncrementSolved(Some(t.dist), g.guessesUsed), currentStreak := streak,
           maxStreak := if t.maxStreak >= streak then t.maxStreak else streak)
      else t.(failed := t.failed + 1, currentStreak := 0);
    t1.(totalScore := t.totalScore + ScoreOf(g), totalPercentDiff := t.totalPercentDiff + DiffOf(g),
        lastDate := if date != "" then date else t.lastDate)
  }

  /** The whole loop over `games`. */
  function FoldGames(t: Tally, games: seq<Game>, dates: string -> Option<string>, yesterday: string): Tally
    decreases |games|
  {
    if games == [] then t
    else FoldGames(Step(t, games[0], DateOf(dates, games[0]), yesterday), games[1..], dates, yesterday)
  }

  /** What the loop keeps: wins go into the distribution and losses into
      `failedGames`, scores and errors are summed with `null` as 0, the
      best streak bounds the current one, a loss ends the streak and a win
      leaves it at least 1, and the last date seen is the last non-empty
      one. */
  lemma {:induction false} FoldInvariants(t: Tally, games: seq<Game>, dates: string -> Option<string>,
                                          yesterday: string)
    requires t.currentStreak <= t.maxStreak && Distinct(Keys(t.dist))
    ensures var r := FoldGames(t, games, dates, yesterday);
            && CountWins(Some(r.dist)) == CountWins(Some(t.dist)) + CountWhere(games, Won)
            && r.failed == t.failed + CountWhere(games, Lost)
            && r.totalScore == t.totalScore + SumBy(games, ScoreOf)
            && r.totalPercentDiff == t.totalPercentDiff + SumByReal(games, DiffOf)
            && t.maxStreak <= r.maxStreak && r.currentStreak <= r.maxStreak
            && Distinct(Keys(r.dist))
            && (games != [] && Lost(games[|games| - 1]) ==> r.currentStreak == 0)
            && (games != [] && Won(games[|games| - 1]) ==> r.currentStreak >= 1)
            && (games != [] && DateOf(dates, games[|games| - 1]) != "" ==>
                  r.lastDate == DateOf(dates, games[|games| - 1]))
            && ((forall g :: g in games ==> DateOf(dates, g) == "") ==> r.lastDate == t.lastDate)
    decreases |games|
  {
    if games != [] {
      var g := games[0];
      var t1 := Step(t, g, DateOf(dates, g), yesterday);
      if g.isSolved {
        BumpCount(t.dist, IntToString(g.guessesUsed));
        BumpDistinct(t.dist, IntToString(g.guessesUsed));
      }
      FoldInvariants(t1, games[1..], dates, yesterday);
      if |games| > 1 {
        assert games[1..][|games[1..]| - 1] == games[|games| - 1];
      }
      if forall g :: g in games ==> DateOf(dates, g) == "" {
        assert g in games;
        assert forall x :: x in games[1..] ==> x in games;
      }
    }
  }

  /** The guess counts of the won games, in the order given. */
  function WonGuesses(games: seq<Game>): seq<int>
    decreases |games|
  {
    if games == [] then []
    else
      var last := games[|games| - 1];
      WonGuesses(games[..|games| - 1]) + if Won(last) then [last.guessesUsed] else []
  }

  /** The loop over `games` then `g` is the loop over `games` and one more
      pass. */
  lemma {:induction false} FoldSnoc(t: Tally, games: seq<Game>, g: Game, dates: string -> Option<string>,
                                    yesterday: string)
    ensures FoldGames(t, games + [g], dates, yesterday)
            == Step(FoldGames(t, games, dates, yesterday), g, DateOf(dates, g), yesterday)
    decreases |games|
  {
    if games != [] {
      assert (games + [g])[0] == games[0];
      assert (games + [g])[1..] == games[1..] + [g];
      FoldSnoc(Step(t, games[0], DateOf(dates, games[0]), yesterday), games[1..], g, dates, yesterday);
    } else {
      assert (games + [g])[1..] == [];
    }
  }

  lemma FoldLast(t: Tally, games: seq<Game>, dates: string -> Option<string>, yesterday: string)
    requires games != []
    ensures var g := games[|games| - 1];
            FoldGames(t, games, dates, yesterday)
            == Step(FoldGames(t, games[..|games| - 1], dates, yesterday), g, DateOf(dates, g), yesterday)
  {
    assert games == games[..|games| - 1] + [games[|games| - 1]];
    FoldSnoc(t, games[..|games| - 1], games[|games| - 1], dates, yesterday);
  }

  /** The distribution built from nothing is the one `incrementSolved`
      builds from the guess counts of the won games, one by one in the
      order visited; losses leave it alone. */
  lemma {:induction false} FoldDistribution(games: seq<Game>, dates: string -> Option<string>, yesterday: string)
    ensures FoldGames(START, games, dates, yesterday).dist == Record(WonGuesses(games))
    decreases |games|
  {
    if games != [] {
      var init := games[..|games| - 1];
      var g := games[|games| - 1];
      var ws := WonGuesses(init);
      var before := FoldGames(START, init, dates, yesterday);
      var after := Step(before, g, DateOf(dates, g), yesterday);
      FoldLast(START, games, dates, yesterday);
      FoldDistribution(init, dates, yesterday);
      StepDist(before, g, DateOf(dates, g), yesterday);
      assert FoldGames(START, games, dates, yesterday).dist == after.dist;
      if Won(g) {
        assert WonGuesses(games) == ws + [g.guessesUsed];
        RecordSnoc(ws, g.guessesUsed);
        assert after.dist == IncrementSolved(Some(Record(ws)), g.guessesUsed);
      } else {
        assert WonGuesses(games) == ws;
        assert after.dist == Record(ws);
      }
    }
  }

  lemma StepDist(t: Tally, g: Game, date: string, yesterday: string)
    ensures Step(t, g, date, yesterday).dist == if Won(g) then IncrementSolved(Some(t.dist), g.guessesUsed) else t.dist
  {
  }

  /** The comparator on `(pidToDate[a] ?? "").localeCompare(…)`, taken as
      code-unit order. */
  function ByDate(dates: string -> Option<string>): (le: (Game, Game) -> bool) {
    (a: Game, b: Game) => !LexLess(DateOf(dates, b), DateOf(dates, a))
  }

  lemma ByDateIsPreorder(dates: string -> Option<string>)
    ensures TotalPreorder(ByDate(dates))
  {
    forall a: Game, b: Game ensures ByDate(dates)(a, b) || ByDate(dates)(b, a) {
      LexLessAsymmetric(DateOf(dates, a), DateOf(dates, b));
    }
    forall a: Game, b: Game, c: Game | ByDate(dates)(a, b) && ByDate(dates)(b, c)
      ensures ByDate(dates)(a, c)
    {
      var da, db, dc := DateOf(dates, a), DateOf(dates, b), DateOf(dates, c);
      if LexLess(dc, da) {
        if da != db {
          LexLessConnected(da, db);
          if db != dc {
            LexLessConnected(db, dc);
            LexLessTransitive(da, db, dc);
          }
          LexLessAsymmetric(da, dc);
        } else if db != dc {
          LexLessConnected(db, dc);
          LexLessAsymmetric(db, dc);
        } else {
          LexLessIrreflexive(dc);
        }
      }
    }
  }

  /** The row written to `user_stats`. */
  datatype StatsRow = StatsRow(totalGames: nat, solvedDistribution: Dist, failedGames: nat, totalScore: int,
                               averageGuesses: real, averagePercentDiff: real, lastPlayedDate: Option<string>,
                               currentStreak: nat, maxStreak: nat)

  /** What happens to one kept player's statistics. */
  datatype StatsUpdate = Cleared | Upserted(row: StatsRow)

  /** The games of one player in the order the loop visits them. */
  function ByDateOrder(games: seq<Game>, dates: string -> Option<string>): (sorted: seq<Game>)
    ensures multiset(sorted) == multiset(games) && |sorted| == |games|
    ensures Sorted(sorted, ByDate(dates))
  {
    ByDateIsPreorder(dates);
    SortSorted(games, ByDate(dates));
    Sort(games, ByDate(dates))
  }

  /** The body of `for (const userId of keepUserIds)` for one player. */
  function Recompute(games: seq<Game>, dates: string -> Option<string>, yesterday: string): (u: StatsUpdate)
    ensures u.Cleared? <==> games == []
  {
    if games == [] then Cleared
    else
      var sorted := ByDateOrder(games, dates);
      var t := FoldGames(START, sorted, dates, yesterday);
      var n := |sorted|;
      Upserted(StatsRow(n, t.dist, t.failed, t.totalScore, AverageGuesses(Some(t.dist)),
                        if n > 0 then t.totalPercentDiff / n as real else 0.0,
                        if t.lastDate == "" then None else Some(t.lastDate),
                        t.currentStreak, t.maxStreak))
  }

  /** A recomputed row counts every remaining game once: wins plus losses
      make the total, losses are the unsolved games, and the keys of the
      distribution are distinct. */
  lemma RecomputeCounts(games: seq<Game>, dates: string -> Option<string>, yesterday: string)
    requires games != []
    ensures var row := Recompute(games, dates, yesterday).row;
            && row.totalGames == |games|
            && CountWins(Some(row.solvedDistribution)) + row.failedGames == row.totalGames
            && row.failedGames == CountWhere(games, Lost)
            && Distinct(Keys(row.solvedDistribution))
  {
    var sorted := ByDateOrder(games, dates);
    FoldInvariants(START, sorted, dates, yesterday);
    FilterPartition(sorted, Won, Lost);
    CountWherePermutation(sorted, games, Lost);
  }

  /** The score is the sum over all the games, whatever their order, with
      `null` as 0. */
  lemma RecomputeScore(games: seq<Game>, dates: string -> Option<string>, yesterday: string)
    requires games != []
    ensures Recompute(games, dates, yesterday).row.totalScore == SumBy(games, ScoreOf)
  {
    var sorted := ByDateOrder(games, dates);
    FoldInvariants(START, sorted, dates, yesterday);
    SumByPermutation(sorted, games, ScoreOf);
  }

  /** The mean error is the summed error of all the games, with `null` as
      0, over their number. */
  lemma RecomputeMeanError(games: seq<Game>, dates: string -> Option<string>, yesterday: string)
    requires games != []
    ensures Recompute(games, dates, yesterday).row.averagePercentDiff
            == SumByReal(games, DiffOf) / |games| as real
  {
    var sorted := ByDateOrder(games, dates);
    var t := FoldGames(START, sorted, dates, yesterday);
    FoldInvariants(START, sorted, dates, yesterday);
    SumByRealPermutation(sorted, games, DiffOf);
  }

  /** The distribution holds exactly the won games, one `incrementSolved`
      each in date order, and the mean guess count is their mean, or 0
      without a win. */
  lemma RecomputeDistribution(games: seq<Game>, dates: string -> Option<string>, yesterday: string)
    requires games != []
    ensures var row := Recompute(games, dates, yesterday).row;
            var won := WonGuesses(ByDateOrder(games, dates));
            && row.solvedDistribution == Record(won)
            && |won| == CountWhere(games, Won)
            && row.averageGuesses == if won == [] then 0.0 else Sum(won) as real / |won| as real
  {
    var sorted := ByDateOrder(games, dates);
    var won := WonGuesses(sorted);
    FoldDistribution(sorted, dates, yesterday);
    FoldInvariants(START, sorted, dates, yesterday);
    RecordTotals(won);
    RecordMean(won);
    CountWherePermutation(sorted, games, Won);
  }

  /** The streak never exceeds the best streak, and it is 0 exactly when
      the game visited last, one with the latest date, is lost. */
  lemma RecomputeStreaks(games: seq<Game>, dates: string -> Option<string>, yesterday: string)
    requires games != []
    ensures var row := Recompute(games, dates, yesterday).row;
            var sorted := ByDateOrder(games, dates);
            && row.currentStreak <= row.maxStreak
            && (row.currentStreak == 0 <==> Lost(sorted[|sorted| - 1]))
            && forall g :: g in games ==> ByDate(dates)(g, sorted[|sorted| - 1])
  {
    var sorted := ByDateOrder(games, dates);
    FoldInvariants(START, sorted, dates, yesterday);
    forall g | g in games ensures ByDate(dates)(g, sorted[|sorted| - 1]) {
      assert g in multiset(sorted);
      var k :| 0 <= k < |sorted| && sorted[k] == g;
      if k < |sorted| - 1 {
        assert ByDate(dates)(sorted[k], sorted[|sorted| - 1]);
      } else {
        ByDateIsPreorder(dates);
      }
    }
  }

  // ---------------------------------------------------------------------
  // The script
  // ---------------------------------------------------------------------

  /** The database as the script reads it, with today's puzzle ids,
      `pidToDate` and yesterday's date. */
  datatype CleanupWorld = CleanupWorld(profiles: seq<Profile>, todayPuzzleIds: seq<string>, games: seq<Game>,
                                       dates: string -> Option<string>, yesterday: string)

  /** What the script does: the users it deletes, then either nothing more
      (no puzzle today) or the games it deletes and each kept player's
      statistics. */
  datatype Outcome =
    | NoPuzzleToday(deletedUsers: seq<string>)
    | Cleaned(deletedUsers: seq<string>, deletedGames: seq<Game>, stats: seq<(string, StatsUpdate)>)

  /** `main()` without `--dry-run`. */
  function Run(world: CleanupWorld): (o: Outcome)
    ensures o.deletedUsers == TestUserIds(world.profiles)
    ensures o.NoPuzzleToday? <==> world.todayPuzzleIds == []
    ensures o.Cleaned? ==>
              forall g :: g in o.deletedGames <==>
                g in world.games && g.userId in KeepUserIds(world.profiles) && g.puzzleId !in world.todayPuzzleIds
    ensures o.Cleaned? ==>
              && |o.stats| == |KeepUserIds(world.profiles)|
              && forall i :: 0 <= i < |o.stats| ==>
                   && o.stats[i].0 == KeepUserIds(world.profiles)[i]
                   && (o.stats[i].1.Cleared? <==>
                         forall g :: g in world.games && g.userId == o.stats[i].0 ==> g.puzzleId !in world.todayPuzzleIds)
  {
    var testIds := TestUserIds(world.profiles);
    var keepIds := KeepUserIds(world.profiles);
    if world.todayPuzzleIds == [] then NoPuzzleToday(testIds)
    else
      var kept := Filter(world.games, OfUsers(keepIds));
      var remaining := RemainingGames(kept, world.todayPuzzleIds);
      var stats := seq(|keepIds|, i requires 0 <= i < |keepIds| =>
                         (keepIds[i], Recompute(Filter(remaining, OfUser(keepIds[i])), world.dates, world.yesterday)));
      assert forall i :: 0 <= i < |keepIds| ==>
               (Filter(remaining, OfUser(keepIds[i])) == [] <==>
                forall g :: g in world.games && g.userId == keepIds[i] ==> g.puzzleId !in world.todayPuzzleIds) by {
        forall i | 0 <= i < |keepIds|
          ensures Filter(remaining, OfUser(keepIds[i])) == [] <==>
                  forall g :: g in world.games && g.userId == keepIds[i] ==> g.puzzleId !in world.todayPuzzleIds
        {
          assert keepIds[i] in keepIds;
          var mine := Filter(remaining, OfUser(keepIds[i]));
          if mine != [] {
            assert mine[0] in mine;
          }
        }
      }
      Cleaned(testIds, StaleGames(kept, world.todayPuzzleIds), stats)
  }

  /** Each kept player with a game today gets statistics recomputed from
      exactly their games of today's puzzles. */
  lemma RunRecomputesFromToday(world: CleanupWorld, i: nat)
    requires world.todayPuzzleIds != []
    requires i < |KeepUserIds(world.profiles)|
    ensures var o := Run(world);
            var id := KeepUserIds(world.profiles)[i];
            var mine := Filter(Filter(Filter(world.games, OfUsers(KeepUserIds(world.profiles))),
                                      OnPuzzles(world.todayPuzzleIds)), OfUser(id));
            && (forall g :: g in mine <==> g in world.games && g.userId == id && g.puzzleId in world.todayPuzzleIds)
            && o.stats[i].1 == Recompute(mine, world.dates, world.yesterday)
  {
    assert KeepUserIds(world.profiles)[i] in KeepUserIds(world.profiles);
  }
}
