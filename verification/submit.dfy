/** The guess submission route `app/api/puzzle/submit/route.ts`: each guess
    is marked exact, high or low against the stored percentage; a game ends
    when every guess is exact or the last guess is used. Only then is it
    scored, are the player's statistics updated and is a rank given. The
    database, the authenticated user and the dates are parameters. */
module Submit {
  import opened Wrappers
  import opened Seqs
  import opened GameConfig
  import opened Scoring
  import opened Validation
  import opened SolvedDistribution
  import opened LeaderboardSort
  import opened DemoMode

  datatype Feedback = Exact | High | Low

  /** `getFeedback(guessed, actual)`. */
  function GetFeedback(guessed: real, actual: real): (f: Feedback)
    ensures f == Exact <==> guessed == actual
    ensures f == High <==> guessed > actual
    ensures f == Low <==> guessed < actual
  {
    if guessed == actual then Exact
    else if guessed > actual then High
    else Low
  }

  /** A stored hand's position and actual percentage. */
  datatype Answer = Answer(position: int, percent: int)

  /** `actualPercents[position] ?? 0`, where `actualPercents` is built with
      `Object.fromEntries`: the last hand at a position wins, and a position
      without a hand reads as 0. */
  function ActualAt(answers: seq<Answer>, position: int): (p: int)
    ensures (forall i :: 0 <= i < |answers| ==> answers[i].position != position) ==> p == 0
  {
    if answers == [] then 0
    else if answers[|answers| - 1].position == position then answers[|answers| - 1].percent
    else ActualAt(answers[..|answers| - 1], position)
  }

  /** With distinct positions, the hand at a position gives its percentage. */
  lemma {:induction false} ActualAtDistinct(answers: seq<Answer>, i: nat)
    requires i < |answers|
    requires forall j, k :: 0 <= j < k < |answers| ==> answers[j].position != answers[k].position
    ensures ActualAt(answers, answers[i].position) == answers[i].percent
  {
    if i < |answers| - 1 {
      ActualAtDistinct(answers[..|answers| - 1], i);
    }
  }

  /** One entry of `feedback`. */
  datatype Marked = Marked(position: int, percent: real, feedback: Feedback)

  /** One element of `guess_history`. */
  datatype Attempt = Attempt(attempt: int, guesses: seq<Marked>)

  /** `guesses.map(…)`: every guess marked against the hand at its position. */
  function MarkGuesses(guesses: seq<Guess>, answers: seq<Answer>): (fb: seq<Marked>)
    ensures |fb| == |guesses|
    ensures forall i :: 0 <= i < |fb| ==>
              && fb[i].position == guesses[i].position && fb[i].percent == guesses[i].percent
              && fb[i].feedback == GetFeedback(guesses[i].percent, ActualAt(answers, guesses[i].position) as real)
  {
    seq(|guesses|, i requires 0 <= i < |guesses| =>
      Marked(guesses[i].position, guesses[i].percent,
             GetFeedback(guesses[i].percent, ActualAt(answers, guesses[i].position) as real)))
  }

  /** `feedback.every((f) => f.feedback === "exact")`. */
  predicate IsSolved(fb: seq<Marked>) {
    forall i :: 0 <= i < |fb| ==> fb[i].feedback == Exact
  }

  /** A submission solves the puzzle exactly when every guess equals the
      actual percentage at its position. */
  lemma SolvedIffAllCorrect(guesses: seq<Guess>, answers: seq<Answer>)
    ensures IsSolved(MarkGuesses(guesses, answers)) <==>
              forall i :: 0 <= i < |guesses| ==> guesses[i].percent == ActualAt(answers, guesses[i].position) as real
  {
    var fb := MarkGuesses(guesses, answers);
    if !IsSolved(fb) {
      var i :| 0 <= i < |fb| && fb[i].feedback != Exact;
      assert guesses[i].percent != ActualAt(answers, guesses[i].position) as real;
    }
  }

  function Abs(x: real): (y: real)
    ensures y >= 0.0 && (y == 0.0 <==> x == 0.0)
  {
    if x < 0.0 then -x else x
  }

  /** `computePercentDiff(feedback, actuals)`: the summed distance of the
      guesses from the actual percentages. */
  function PercentDiff(fb: seq<Marked>, answers: seq<Answer>): (d: real)
    ensures d >= 0.0
  {
    if fb == [] then 0.0
    else Abs(fb[0].percent - ActualAt(answers, fb[0].position) as real) + PercentDiff(fb[1..], answers)
  }

  /** The marks agree with the actual percentages. */
  ghost predicate MarkedAgainst(fb: seq<Marked>, answers: seq<Answer>) {
    forall i :: 0 <= i < |fb| ==>
      fb[i].feedback == GetFeedback(fb[i].percent, ActualAt(answers, fb[i].position) as real)
  }

  lemma {:induction false} PercentDiffZero(fb: seq<Marked>, answers: seq<Answer>)
    requires MarkedAgainst(fb, answers)
    ensures PercentDiff(fb, answers) == 0.0 <==> IsSolved(fb)
  {
    if fb != [] {
      PercentDiffZero(fb[1..], answers);
      if IsSolved(fb) {
        assert IsSolved(fb[1..]) by {
          forall i | 0 <= i < |fb[1..]| ensures fb[1..][i].feedback == Exact {
            assert fb[1..][i] == fb[i + 1];
          }
        }
      } else if IsSolved(fb[1..]) {
        assert fb[0].feedback != Exact by {
          forall i | 1 <= i < |fb| ensures fb[i].feedback == Exact {
            assert fb[i] == fb[1..][i - 1];
          }
        }
      }
    }
  }

  /** The error is 0 exactly when the puzzle is solved. */
  lemma PercentDiffZeroIffSolved(guesses: seq<Guess>, answers: seq<Answer>)
    ensures PercentDiff(MarkGuesses(guesses, answers), answers) == 0.0 <==> IsSolved(MarkGuesses(guesses, answers))
  {
    PercentDiffZero(MarkGuesses(guesses, answers), answers);
  }

  /** The game is over: solved, or the last guess used. */
  predicate Finished(isSolved: bool, guessesUsed: int) {
    isSolved || guessesUsed >= MAX_GUESSES
  }

  /** `totalScore`: a solve scores for its guess count, a loss on the last
      guess scores as a solve with every guess, anything else scores 0. */
  function TotalScore(isSolved: bool, guessesUsed: int, t: real): (s: int)
    ensures s >= 0
    ensures !Finished(isSolved, guessesUsed) ==> s == 0
    ensures 1 <= guessesUsed <= MAX_GUESSES ==> (s > 0 <==> Finished(isSolved, guessesUsed))
  {
    if isSolved then CalculateScore(guessesUsed, t)
    else if guessesUsed >= MAX_GUESSES then CalculateScore(MAX_GUESSES, t)
    else 0
  }

  /** Solving with fewer guesses scores more, at the same time. */
  lemma FewerGuessesScoreMore(a: int, b: int, t: real)
    requires 1 <= a < b <= MAX_GUESSES
    ensures TotalScore(true, b, t) < TotalScore(true, a, t)
  {
    BaseScoreStrictlyDecreasing(a, b);
  }

  /** Losing on the last guess scores like solving on it. */
  lemma LossScoresAsLastGuess(t: real)
    ensures TotalScore(false, MAX_GUESSES, t) == TotalScore(true, MAX_GUESSES, t)
  {
  }

  /** `Math.max(0, MAX_GUESSES - guessesUsed)`. */
  function GuessesRemaining(guessesUsed: int): (r: int)
    ensures r >= 0
    ensures r == 0 <==> guessesUsed >= MAX_GUESSES
    ensures guessesUsed <= MAX_GUESSES ==> guessesUsed + r == MAX_GUESSES
  {
    if MAX_GUESSES - guessesUsed < 0 then 0 else MAX_GUESSES - guessesUsed
  }

  // ---------------------------------------------------------------------
  // Statistics
  // ---------------------------------------------------------------------

  /** A `user_stats` row. */
  datatype UserStats = UserStats(
    totalGames: nat, solvedDistribution: Option<Dist>, failedGames: nat,
    currentStreak: nat, maxStreak: nat, totalScore: int,
    averageGuesses: real, averagePercentDiff: real, lastPlayedDate: Option<string>)

  /** What `stats?.field ?? 0` reads when there is no row. */
  const NO_STATS := UserStats(0, None, 0, 0, 0, 0, 0.0, 0.0, None)

  function Prior(stats: Option<UserStats>): UserStats {
    stats.GetOr(NO_STATS)
  }

  /** The finished game `updateUserStats` records. */
  datatype GameResult = GameResult(guessesUsed: int, isSolved: bool, totalScore: int,
                                   puzzleDate: string, percentDiff: real)

  function Max(a: nat, b: nat): (m: nat)
    ensures m >= a && m >= b && (m == a || m == b)
  {
    if a >= b then a else b
  }

  /** `(mean * n + x) / (n + 1)`: the mean after one more value. */
  function RunningMean(mean: real, n: nat, x: real): (m: real)
    ensures m * (n + 1) as real == mean * n as real + x
  {
    (mean * n as real + x) / (n + 1) as real
  }

  /** The new `average_percent_diff`: the running mean, or the game's own
      error for a player without statistics. */
  function AverageAfter(stats: Option<UserStats>, percentDiff: real): (m: real)
    ensures m * (Prior(stats).totalGames + 1) as real
         == Prior(stats).averagePercentDiff * Prior(stats).totalGames as real + percentDiff
  {
    if stats.Some? then RunningMean(stats.value.averagePercentDiff, stats.value.totalGames, percentDiff)
    else percentDiff
  }

  /** `updateUserStats`: one more game, a win or a loss. The streak goes on
      when the last game was yesterday's, restarts at 1 on another win and is
      0 after a loss; the average error is a running mean. */
  function UpdateUserStats(stats: Option<UserStats>, yesterday: string, game: GameResult): (s: UserStats)
    ensures s.totalGames == Prior(stats).totalGames + 1
    ensures s.failedGames == Prior(stats).failedGames + (if game.isSolved then 0 else 1)
    ensures CountWins(s.solvedDistribution) == CountWins(Prior(stats).solvedDistribution) + (if game.isSolved then 1 else 0)
    ensures !game.isSolved ==> s.currentStreak == 0
    ensures game.isSolved && Prior(stats).lastPlayedDate == Some(yesterday) ==>
              s.currentStreak == Prior(stats).currentStreak + 1
    ensures game.isSolved && Prior(stats).lastPlayedDate != Some(yesterday) ==> s.currentStreak == 1
    ensures s.maxStreak >= Prior(stats).maxStreak && s.maxStreak >= s.currentStreak
    ensures s.maxStreak == Max(Prior(stats).maxStreak, s.currentStreak)
    ensures s.solvedDistribution ==
              Some(if game.isSolved then IncrementSolved(Prior(stats).solvedDistribution, game.guessesUsed)
                   else Prior(stats).solvedDistribution.GetOr([]))
    ensures s.totalScore == Prior(stats).totalScore + game.totalScore
    ensures s.averagePercentDiff == AverageAfter(stats, game.percentDiff)
    ensures s.averageGuesses == AverageGuesses(s.solvedDistribution)
    ensures s.lastPlayedDate == Some(game.puzzleDate)
  {
    var before := Prior(stats);
    var currentStreak: nat :=
      if before.lastPlayedDate == Some(yesterday) then before.currentStreak + 1
      else if game.isSolved then 1 else 0;
    var currentDist := Some(before.solvedDistribution.GetOr([]));
    var dist := if game.isSolved then Some(IncrementSolved(currentDist, game.guessesUsed)) else currentDist;
    BumpCount(currentDist.value, Strings.IntToString(game.guessesUsed));
    var games := before.totalGames + 1;
    var avgDiff := AverageAfter(stats, game.percentDiff);
    UserStats(
      games, dist,
      if !game.isSolved then before.failedGames + 1 else before.failedGames,
      if game.isSolved then currentStreak else 0,
      Max(before.maxStreak, if game.isSolved then currentStreak else 0),
      before.totalScore + game.totalScore,
      AverageGuesses(dist), avgDiff, Some(game.puzzleDate))
  }

  /** Wins and losses add up to the games played, and the current streak
      never exceeds the best one. */
  ghost predicate Consistent(s: UserStats) {
    CountWins(s.solvedDistribution) + s.failedGames == s.totalGames && s.currentStreak <= s.maxStreak
  }

  /** Recording a game keeps the statistics consistent. */
  lemma UpdateKeepsConsistent(stats: Option<UserStats>, yesterday: string, game: GameResult)
    requires stats.Some? ==> Consistent(stats.value)
    ensures Consistent(UpdateUserStats(stats, yesterday, game))
  {
  }

  // ---------------------------------------------------------------------
  // The route
  // ---------------------------------------------------------------------

  /** The request body; a missing `attemptNumber` is `None`, and `puzzleId`
      "" is missing. */
  datatype Body = Body(puzzleId: string, guesses: seq<Guess>, attemptNumber: Option<int>, timeInSeconds: real)

  datatype PuzzleRow = PuzzleRow(date: string, answers: seq<Answer>)

  /** A `guesses` row: the player's attempts at one puzzle. */
  datatype GuessRow = GuessRow(history: seq<Attempt>, guessesUsed: int, isSolved: bool,
                               time: real, totalScore: int, percentDiff: real)

  /** The server's view: the demo decision, the signed-in user, the puzzle
      rows by id, the current puzzle date, the player's existing row, whether
      the write fails, their statistics, yesterday's date and the puzzle's
      `guesses` rows as read after the write. */
  datatype SubmitWorld = SubmitWorld(
    useDemo: UseDemo, userId: Option<string>, puzzles: string -> Option<PuzzleRow>,
    currentDate: Option<string>, existing: Option<GuessRow>, saveFails: bool,
    stats: Option<UserStats>, yesterday: string, board: seq<DailyEntry>)

  /** A whole JavaScript number, or `NaN`, which `JSON.stringify` writes
      as `null`. */
  datatype Number = Num(n: int) | NaN

  /** The `data` of a successful response; `totalScore` is only present
      once the game is over. */
  datatype Outcome = Outcome(feedback: seq<Marked>, isSolved: bool, guessesRemaining: Number,
                             totalScore: Option<Number>, percentDiff: real, rank: Option<nat>,
                             actuals: seq<Answer>)

  datatype Response =
    | ServiceUnavailable
    | BadGuesses(reason: Reason)
    | BadAttempt
    | Unauthenticated
    | MissingFields
    | PuzzleNotFound
    | NotCurrentPuzzle
    | AlreadySolved
    | NoGuessesRemaining
    | SaveFailed
    | Submitted(outcome: Outcome, saved: Option<GuessRow>, stats: Option<UserStats>)

  /** The fixed answers of the demo puzzle. */
  const DEMO_ANSWERS: seq<Answer> := [Answer(1, 30), Answer(2, 38), Answer(3, 17), Answer(4, 15)]

  /** Feedback, solve, score and error of one submission. */
  datatype Scored = Scored(feedback: seq<Marked>, isSolved: bool, totalScore: int, percentDiff: real)

  function Score(guesses: seq<Guess>, answers: seq<Answer>, attempt: int, t: real): (sc: Scored)
    ensures sc.feedback == MarkGuesses(guesses, answers)
    ensures sc.isSolved == IsSolved(sc.feedback)
    ensures sc.totalScore == TotalScore(sc.isSolved, attempt, t)
    ensures sc.percentDiff == PercentDiff(sc.feedback, answers)
  {
    var fb := MarkGuesses(guesses, answers);
    var solved := IsSolved(fb);
    Scored(fb, solved, TotalScore(solved, attempt, t), PercentDiff(fb, answers))
  }

  /** The player's 1-based place on the day's board: rows with a guess,
      sorted as the daily leaderboard. */
  function RankOf(board: seq<DailyEntry>, user: string): (rank: Option<nat>)
    ensures rank.Some? ==>
              var sorted := SortDailyLeaderboard(Filter(board, (e: DailyEntry) => e.guessesUsed > 0));
              && 1 <= rank.value <= |sorted| && sorted[rank.value - 1].userId == user
              && forall k :: 0 <= k < rank.value - 1 ==> sorted[k].userId != user
    ensures rank.None? ==> forall e :: e in board && e.guessesUsed > 0 ==> e.userId != user
  {
    var completed := Filter(board, (e: DailyEntry) => e.guessesUsed > 0);
    var sorted := SortDailyLeaderboard(completed);
    match FindIndex(sorted, (e: DailyEntry) => e.userId == user)
    case None =>
      assert forall e :: e in completed ==> e in multiset(sorted);
      None
    case Some(k) => Some(k + 1)
  }

  predicate AttemptInRange(attempt: int) {
    1 <= attempt <= MAX_GUESSES
  }

  /** `attemptNumber < 1 || attemptNumber > MAX_GUESSES`: both comparisons
      are false for a missing attempt. */
  predicate AttemptRefused(attempt: Option<int>) {
    attempt.Some? && !AttemptInRange(attempt.value)
  }

  /** The demo puzzle: validated and scored against the fixed answers,
      nothing stored. A missing attempt number passes the range check; the
      score and the remaining guesses computed from it are then `NaN`. */
  function HandleDemo(body: Body): (r: Response)
    ensures r.Submitted? <==> ValidateGuesses(body.guesses) == Valid && !AttemptRefused(body.attemptNumber)
    ensures r.BadAttempt? <==> ValidateGuesses(body.guesses) == Valid && AttemptRefused(body.attemptNumber)
    ensures r.Submitted? ==>
              && r.saved.None? && r.stats.None? && r.outcome.rank.None?
              && r.outcome.feedback == MarkGuesses(body.guesses, DEMO_ANSWERS)
              && r.outcome.isSolved == IsSolved(r.outcome.feedback)
              && r.outcome.percentDiff == PercentDiff(r.outcome.feedback, DEMO_ANSWERS)
              && r.outcome.actuals == DEMO_ANSWERS
    ensures r.Submitted? && body.attemptNumber.Some? ==>
              var a := body.attemptNumber.value;
              var sc := Score(body.guesses, DEMO_ANSWERS, a, body.timeInSeconds);
              && r.outcome.guessesRemaining == Num(MAX_GUESSES - a)
              && r.outcome.totalScore == if Finished(sc.isSolved, a) then Some(Num(sc.totalScore)) else None
    ensures r.Submitted? && body.attemptNumber.None? ==>
              && r.outcome.guessesRemaining == NaN
              && r.outcome.totalScore == if r.outcome.isSolved then Some(NaN) else None
  {
    match ValidateGuesses(body.guesses)
    case Invalid(reason) => BadGuesses(reason)
    case Valid =>
      match body.attemptNumber
      case None =>
        var fb := MarkGuesses(body.guesses, DEMO_ANSWERS);
        var solved := IsSolved(fb);
        Submitted(Outcome(fb, solved, NaN, if solved then Some(NaN) else None,
                          PercentDiff(fb, DEMO_ANSWERS), None, DEMO_ANSWERS),
                  None, None)
      case Some(a) =>
        if !AttemptInRange(a) then BadAttempt
        else
          var sc := Score(body.guesses, DEMO_ANSWERS, a, body.timeInSeconds);
          var finished := Finished(sc.isSolved, a);
          Submitted(Outcome(sc.feedback, sc.isSolved, Num(GuessesRemaining(a)),
                            if finished then Some(Num(sc.totalScore)) else None, sc.percentDiff, None, DEMO_ANSWERS),
                    None, None)
  }

  /** A stored puzzle: the player's row is written and, once the game is
      over, the statistics and the rank follow. */
  function HandleStored(body: Body, attempt: int, world: SubmitWorld, user: string, puzzle: PuzzleRow): (r: Response)
    ensures r.Submitted? ==> r.saved.Some?
  {
    var sc := Score(body.guesses, puzzle.answers, attempt, body.timeInSeconds);
    var previous := match world.existing case None => [] case Some(row) => row.history;
    var row := GuessRow(previous + [Attempt(attempt, sc.feedback)], attempt,
                        sc.isSolved, body.timeInSeconds, sc.totalScore, sc.percentDiff);
    if world.existing.Some? && world.existing.value.isSolved then AlreadySolved
    else if world.existing.Some? && world.existing.value.guessesUsed >= MAX_GUESSES then NoGuessesRemaining
    else if world.saveFails then SaveFailed
    else
      var finished := Finished(sc.isSolved, attempt);
      var stats := if finished then
        Some(UpdateUserStats(world.stats, world.yesterday,
                             GameResult(attempt, sc.isSolved, sc.totalScore, puzzle.date, sc.percentDiff)))
        else None;
      var rank := if finished then RankOf(world.board, user) else None;
      Submitted(Outcome(sc.feedback, sc.isSolved, Num(GuessesRemaining(attempt)),
                        if finished then Some(Num(sc.totalScore)) else None, sc.percentDiff, rank, puzzle.answers),
                Some(row), stats)
  }

  /** `POST(request)`. */
  function Handle(body: Body, world: SubmitWorld): (r: Response)
    ensures r == ServiceUnavailable <==> world.useDemo == Fail
    ensures r.Submitted? ==> ValidateGuesses(body.guesses) == Valid && !AttemptRefused(body.attemptNumber)
    ensures r.Submitted? && body.puzzleId != "demo-puzzle" ==>
              body.attemptNumber.Some? && AttemptInRange(body.attemptNumber.value)
    ensures r.BadAttempt? ==> AttemptRefused(body.attemptNumber)
    ensures world.useDemo != Fail && body.puzzleId == "demo-puzzle" ==> r == HandleDemo(body)
    ensures r.Submitted? && r.saved.Some? ==>
              && world.userId.Some?
              && (world.existing.None? ||
                    (!world.existing.value.isSolved && world.existing.value.guessesUsed < MAX_GUESSES))
    ensures r.Submitted? && body.puzzleId != "demo-puzzle" ==> r.saved.Some?
  {
    if world.useDemo == Fail then ServiceUnavailable
    else if body.puzzleId == "demo-puzzle" then HandleDemo(body)
    else if world.userId.None? then Unauthenticated
    else if body.puzzleId == [] || body.attemptNumber.GetOr(0) == 0 then MissingFields
    else match ValidateGuesses(body.guesses)
      case Invalid(reason) => BadGuesses(reason)
      case Valid =>
        if !AttemptInRange(body.attemptNumber.value) then BadAttempt
        else match world.puzzles(body.puzzleId)
          case None => PuzzleNotFound
          case Some(puzzle) =>
            if world.currentDate != Some(puzzle.date) then NotCurrentPuzzle
            else HandleStored(body, body.attemptNumber.value, world, world.userId.value, puzzle)
  }

  /** The HTTP status of a response. */
  function Status(r: Response): (code: nat)
    ensures code == 200 <==> r.Submitted?
    ensures code == 400 <==> r.BadGuesses? || r.BadAttempt? || r.MissingFields? || r.NotCurrentPuzzle?
                             || r.AlreadySolved? || r.NoGuessesRemaining?
  {
    match r
    case ServiceUnavailable => 503
    case Unauthenticated => 401
    case PuzzleNotFound => 404
    case SaveFailed => 500
    case Submitted(_, _, _) => 200
    case _ => 400
  }

  /** An attempt number outside `1..MAX_GUESSES` is refused before anything
      is scored or stored. */
  lemma AttemptOutOfRangeRefused(body: Body, world: SubmitWorld)
    requires world.useDemo != Fail && AttemptRefused(body.attemptNumber)
    ensures !Handle(body, world).Submitted?
  {
  }

  /** A stored submission records the new attempt after the earlier ones,
      with the score, error and solve of the guesses; the game is scored,
      counted in the statistics and ranked exactly when it is over. */
  lemma StoredSubmission(body: Body, world: SubmitWorld)
    requires Handle(body, world).Submitted? && body.puzzleId != "demo-puzzle"
    ensures var r := Handle(body, world);
            var puzzle := world.puzzles(body.puzzleId).value;
            var row := r.saved.value;
            var a := body.attemptNumber.value;
            var finished := Finished(row.isSolved, a);
            && world.currentDate == Some(puzzle.date)
            && row.history == (if world.existing.Some? then world.existing.value.history else [])
                              + [Attempt(a, MarkGuesses(body.guesses, puzzle.answers))]
            && row.guessesUsed == a
            && (row.isSolved <==> forall i :: 0 <= i < |body.guesses| ==>
                  body.guesses[i].percent == ActualAt(puzzle.answers, body.guesses[i].position) as real)
            && (row.percentDiff == 0.0 <==> row.isSolved)
            && row.totalScore == TotalScore(row.isSolved, a, body.timeInSeconds)
            && r.outcome.totalScore == (if finished then Some(Num(row.totalScore)) else None)
            && (r.stats.Some? <==> finished)
            && (r.outcome.rank.Some? ==> finished)
            && r.outcome.guessesRemaining == Num(MAX_GUESSES - a)
  {
    var puzzle := world.puzzles(body.puzzleId).value;
    SolvedIffAllCorrect(body.guesses, puzzle.answers);
    PercentDiffZeroIffSolved(body.guesses, puzzle.answers);
  }

  /** A demo submission is judged against the fixed answers: solved
      exactly when every guess is that hand's percentage, with zero error
      exactly when solved; a missing attempt number still gets an answer. */
  lemma DemoSubmission(body: Body, world: SubmitWorld)
    requires world.useDemo != Fail && body.puzzleId == "demo-puzzle"
    requires ValidateGuesses(body.guesses) == Valid && !AttemptRefused(body.attemptNumber)
    ensures var r := Handle(body, world);
            && r.Submitted? && r.saved.None?
            && (r.outcome.isSolved <==> forall i :: 0 <= i < |body.guesses| ==>
                  body.guesses[i].percent == ActualAt(DEMO_ANSWERS, body.guesses[i].position) as real)
            && (r.outcome.percentDiff == 0.0 <==> r.outcome.isSolved)
            && (body.attemptNumber.None? <==> r.outcome.guessesRemaining == NaN)
  {
    SolvedIffAllCorrect(body.guesses, DEMO_ANSWERS);
    PercentDiffZeroIffSolved(body.guesses, DEMO_ANSWERS);
  }
}
