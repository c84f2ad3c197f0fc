# Holdemle in Dafny

Holdemle is a daily poker puzzle. Every day four two-card Texas Hold'em
hands are dealt, and the player guesses each hand's pre-flop equity as a
whole percentage, the four summing to 100. After each of at most three
guesses the game marks every hand exact, high or low. A solve scores by the
number of guesses and the time taken, and daily and all-time leaderboards
rank the players.

This project models the core of the game as pure Dafny functions over
immutable datatypes, and proves what the code promises. The modules follow
the source files:

- **Puzzle generation.** The deck (`Deck`), the eight hand families and
  weighted sampling (`HandFamilies`), `roundToSum100` (`OddsRounding`), and
  the weight table, difficulty label and stored puzzle row shared by both
  generators (`DailyPuzzle`). Also the scheduled route with its 50-draw
  fairness gate (`CronRoute`) and the batch script with its `do … while`
  retry loop (`PuzzleScript`).
- **Play-time arithmetic.**
  - Scores: `GameConfig`, `Scoring`.
  - Guess checks and the submit route with its statistics update:
    `Validation`, `Submit`.
  - The solved-games distribution: `SolvedDistribution`.
  - Sorting and the leaderboard route: `LeaderboardSort`, `Leaderboard`.
  - The launch clean-up script that recomputes statistics: `Cleanup`.
- **Small string and decision functions.** The share text (`ShareText`),
  the redirect whitelist (`Redirect`), the signup checks and `slugify`
  (`Signup`), the demo-mode switch (`DemoMode`), and the README marker
  splice of the version script (`VersionSync`).

Supporting modules:

- `Wrappers`: `Option` and `Result`.
- `Seqs`: sums, filters, `FlatMap`.
- `Strings`: JavaScript's `trim`, `indexOf`, `split`, `parseInt` and
  `String(n)` on the cases the code uses.
- `Random`: `Math.floor(u * n)`.
- `StableSort`: a stable insertion sort standing for `Array.prototype.sort`.

**Parameters.** Everything outside the program becomes a parameter of the
model:

- `Math.random()`: a stream `rand: nat -> Draw` of reals in [0, 1), read
  through an explicit cursor.
- The equity computation: a function from the call index and the hands to
  four reals.
- Environment variables and `JSON.parse`.
- Date formatting: date strings and a date parser.
- Database reads and writes, and the service's sign-up answer.

Equities, guesses, times and averages are exact `real`s. Counts and scores
are `int`.

## Model

| member | source | states |
|---|---|---|
| Deck.CreateDeck | lib/poker/deck.ts:6-17 | A card is in the deck exactly when it is not excluded, and the deck runs in rank-major, suit-minor order (strictly increasing position in the full deck). |
| Deck.CreateDeckDistinct | lib/poker/deck.ts:6-17 | No card occurs twice in `createDeck(exclude)`. |
| Deck.FullDeck | lib/poker/deck.ts:1-17 | `createDeck()` has 52 cards, and card `i` has rank `RANKS[i / 4]` and suit `SUITS[i % 4]`. |
| Deck.ShuffleDeck | lib/poker/deck.ts:19-26 | For any draws, the shuffle returns a permutation of its input: same length, same multiset. The input is a value, so it is left as it was. |
| Deck.DisplayOfCard | lib/poker/deck.ts:28-45 | A card's display is "10" for the ten, otherwise the rank character, followed by the suit symbol ♠ ♥ ♦ ♣. |
| Deck.DisplayInjective | lib/poker/deck.ts:28-45 | Two cards with the same display are the same card. |
| Deck.DisplayPassThrough | lib/poker/deck.ts:28-45 | A two-character text whose rank is not `T` and whose suit is not one of `shdc` is displayed unchanged. |
| Deck.RedIffRedSymbol | lib/poker/deck.ts:47-50 | A card is red exactly when its suit is `h` or `d`, exactly when it is displayed with ♥ or ♦. |
| Random.Scale | lib/poker/hand-families.ts:36-38 | `Math.floor(u * n)` is an index below `n`. |
| HandFamilies.ParseFamilyName | lib/poker/hand-families.ts:14-22 | Each family is recovered from its weight-table key. |
| HandFamilies.KickerCharacters | lib/poker/hand-families.ts:70-128 | The six kicker lists are, character for character, those of the source. |
| HandFamilies.KingKickers | lib/poker/hand-families.ts:70-88 | `k4s_k6o` kickers: suited from 4 up, offsuit from 6 up, never a king. |
| HandFamilies.QueenKickers | lib/poker/hand-families.ts:90-108 | `q6s_q8o` kickers: suited from 6 up, offsuit from 8 up, never a queen. |
| HandFamilies.JackKickers | lib/poker/hand-families.ts:110-128 | `j8s_j10o` kickers: suited from 8 up, offsuit from ten up, never a jack. |
| HandFamilies.AllAxMembers | lib/poker/hand-families.ts:56-68 | A hand is an `all_ax` candidate exactly when it is an available ace with an available non-ace kicker. |
| HandFamilies.HighFamilyMembers | lib/poker/hand-families.ts:70-128 | The candidates of a high-card family are exactly the available hands of the high card with a kicker in its suited or offsuit range. |
| HandFamilies.ConnectorMembers | lib/poker/hand-families.ts:130-142 | The `connectors` candidates are exactly the available hands whose second rank is one above the first, in any suits. |
| HandFamilies.GapperMembers | lib/poker/hand-families.ts:144-154 | The `suited_one_gappers` candidates are exactly the available same-suit hands whose ranks are two apart. |
| HandFamilies.PairMembers | lib/poker/hand-families.ts:156-165 | The `pocket_pairs` candidates are exactly the available hands of two cards of one rank and different suits, in both orders. |
| HandFamilies.RandomMembers | lib/poker/hand-families.ts:167-176 | The `random` candidates are exactly the available hands whose first card code sorts before the second. |
| HandFamilies.CandidatesExact | lib/poker/hand-families.ts:50-179 | For every family, a hand is a candidate exactly when it belongs to the family and avoids every excluded card. |
| HandFamilies.FamilyHandCardsDiffer | lib/poker/hand-families.ts:50-179 | No family hand uses the same card twice. |
| HandFamilies.RandomHandsOneOrder | lib/poker/hand-families.ts:167-176 | Two different cards form exactly one `random` hand, in one order. |
| HandFamilies.CandidateSound | lib/poker/hand-families.ts:50-179 | A candidate avoids the excluded cards, has two different cards, and belongs to the family its key names; an unknown key has no candidates. |
| HandFamilies.PickHandFromFamily | lib/poker/hand-families.ts:41-48 | The result is null exactly when the candidate list is empty; otherwise it is a member of that list. |
| HandFamilies.AllAxEmptyIff | lib/poker/hand-families.ts:41-68 | `all_ax` yields null exactly when all four aces, or all other cards, are excluded. |
| HandFamilies.SampleIndex | lib/poker/hand-families.ts:182-191 | The chosen entry is the first at which the running weight sum reaches `r`; if no entry does, it is the last entry. |
| HandFamilies.SampleFamily | lib/poker/hand-families.ts:182-191 | The sampled family is a key of the weight table. |
| HandFamilies.DealFour | lib/poker/hand-families.ts:207-214 | The inner loop either stops early or completes the hands dealt so far to four hands, eight distinct cards, each from a family of the table. |
| HandFamilies.DealStep | lib/poker/hand-families.ts:207-214 | Adding a candidate hand of a sampled family keeps the used set equal to the cards dealt, no card twice, each hand from a listed family. |
| HandFamilies.DealFourStep | lib/poker/hand-families.ts:207-214 | One round of the inner loop: it stops when the sampled family has no candidate left. Otherwise the picked hand is of that family, the used set stays the dealt cards, and the loop goes on two draws later. |
| HandFamilies.DealFourOutcome | lib/poker/hand-families.ts:207-214 | A complete deal reads exactly two draws per hand. The loop stops early exactly right after the family draw of some hand, and that family then has no hand avoiding the cards dealt so far. |
| HandFamilies.DealFourFamilies | lib/poker/hand-families.ts:207-214 | In a complete deal each new hand is of the family sampled by its own draw, so every sampled family had a candidate. |
| HandFamilies.GenerateFourHands | lib/poker/hand-families.ts:197-220 | A non-null result is four hands with eight pairwise-distinct cards, each from a family named in the table. With no attempt allowed the result is null. Otherwise a complete first attempt is the result, and after an early stop the generator starts over, with one attempt fewer, at the draw where that attempt stopped. |
| HandFamilies.GenerateFindsFirstComplete | lib/poker/hand-families.ts:203-219 | Each attempt restarts with no used card where the previous one stopped reading draws. The result is non-null exactly when one of the `maxAttempts` attempts completes, and it is then the first complete one. |
| OddsRounding.MaxIndex | lib/poker/odds-calculator.ts:61 | `indexOf(Math.max(...))` is the first index of a largest element. |
| OddsRounding.RoundToSum100 | lib/poker/odds-calculator.ts:39-66 | It throws exactly when the input does not have 4 values; otherwise it returns 4 integers summing to exactly 100. |
| OddsRounding.RoundDownTwoSmallest | lib/poker/odds-calculator.ts:44-55 | Exactly two indices are floored. Each has a smaller fractional part than every ceiled index, ties going to the lower index. |
| OddsRounding.NoFallbackWithinOne | lib/poker/odds-calculator.ts:52-58 | Without the fallback, every output is the floor or the ceiling of its input, so it is less than 1 away. |
| OddsRounding.FallbackTouchesFirstMax | lib/poker/odds-calculator.ts:57-63 | The fallback changes only the first largest rounded value, by the whole residual; when the sum is already 100 nothing changes. |
| OddsRounding.IntegersSumming100Unchanged | lib/poker/odds-calculator.ts:44-65 | Four whole numbers summing to 100 come back unchanged. |
| OddsRounding.EvenSplitUnchanged | lib/poker/odds-calculator.ts:39-66 | `[25, 25, 25, 25]` comes back as it is. |
| DailyPuzzle.DefaultWeightsWellFormed | lib/poker/hand-families.ts:25-34 | The default weight table is a well-formed object: distinct keys, in the order JavaScript keeps them. |
| DailyPuzzle.PutLookup | app/api/cron/generate-daily-puzzle/route.ts:22 | After `obj[k] = v`, key `k` holds `v` and every other key keeps its value. |
| DailyPuzzle.PutKeys | app/api/cron/generate-daily-puzzle/route.ts:22 | After `obj[k] = v`, the keys are the old keys plus `k`. |
| DailyPuzzle.PutWellFormed | app/api/cron/generate-daily-puzzle/route.ts:22 | Setting a key keeps the object well formed: distinct keys, integer-like keys first in increasing order. |
| DailyPuzzle.MergeLookup | app/api/cron/generate-daily-puzzle/route.ts:22 | In `{...base, ...overrides}`, a key has the last value the overrides give it, otherwise its base value; the keys are those of either side. |
| DailyPuzzle.MergeKeepsBaseOrder | app/api/cron/generate-daily-puzzle/route.ts:22 | Without integer-like override keys, the base keys stay at the front in their order. |
| DailyPuzzle.MergeWellFormed | app/api/cron/generate-daily-puzzle/route.ts:22 | Spreading any overrides over a well-formed object gives a well-formed object. |
| DailyPuzzle.PutKeepsOrder | app/api/cron/generate-daily-puzzle/route.ts:22 | Setting a key that is not integer-like keeps the existing keys in their order, in front. |
| DailyPuzzle.ParseWeights | app/api/cron/generate-daily-puzzle/route.ts:17-26 | The table never has fewer entries than the defaults. |
| DailyPuzzle.ParseWeightsValues | app/api/cron/generate-daily-puzzle/route.ts:17-26 | An unset or unparsable variable gives exactly the defaults. Otherwise every default key stays present, a parsed key overrides its default, and unknown parsed keys are kept. The same function is at scripts/generate-puzzles.ts:25-34. |
| DailyPuzzle.DifficultyBySpread | app/api/cron/generate-daily-puzzle/route.ts:28-35 | The label is "easy" when two values are at least 15 apart, otherwise "medium" when two are at least 8 apart, otherwise "hard". The thresholds are the same at scripts/generate-puzzles.ts:45-52. |
| DailyPuzzle.PuzzleHandsRoundTrip | app/api/cron/generate-daily-puzzle/route.ts:105-109 | The stored hands column gives back the dealt hands and the rounded percentages, with positions 1, 2, … in draw order. |
| DailyPuzzle.BuildPuzzle | app/api/cron/generate-daily-puzzle/route.ts:103-109 | The row has the date, four hands at positions 1 to 4 whose percentages sum to 100, and the difficulty of the rounded percentages, not of the raw odds. |
| DailyPuzzle.BuildPuzzleRounds | app/api/cron/generate-daily-puzzle/route.ts:103-109 | The stored percentages are exactly `roundToSum100` of the equities. |
| DailyPuzzle.DealSourceSound | app/api/cron/generate-daily-puzzle/route.ts:90 | Every deal the generator makes from a table is a valid deal for that table. |
| CronRoute.Search | app/api/cron/generate-daily-puzzle/route.ts:86-94 | The loop stops by the fiftieth iteration, and kept hands always come with four odds. |
| CronRoute.SearchFindsFirstPass | app/api/cron/generate-daily-puzzle/route.ts:86-101 | The loop yields a puzzle exactly when some of its fifty iterations passes the gate. The puzzle is then the first passing iteration's deal with that iteration's odds: stale odds left over from a null deal never pass the final check. |
| CronRoute.Status | app/api/cron/generate-daily-puzzle/route.ts:38-145 | 200 exactly for an existing or a created puzzle, 401 exactly when unauthorised, 400 exactly for a bad date. |
| CronRoute.TargetDate | app/api/cron/generate-daily-puzzle/route.ts:53-68 | Without a `date` parameter the target is tomorrow. |
| CronRoute.Handle | app/api/cron/generate-daily-puzzle/route.ts:37-146 | Unauthorised exactly without the bearer secret. Missing credentials exactly when authorised without a URL or key. "Invalid date" (400) exactly when authorised, configured and the `date` parameter does not parse. "Already exists", with no insert, exactly when the target date has a puzzle. A created puzzle is for a free target date, comes from one of the first fifty iterations with all four odds in [5, 50], and has four hands summing to 100. |
| CronRoute.CronCreatesIff | app/api/cron/generate-daily-puzzle/route.ts:86-135 | With the checks passed and a working insert, a puzzle is created exactly when some iteration passes the gate; otherwise the route reports that it could not generate one. |
| CronRoute.CronCreatedPuzzle | app/api/cron/generate-daily-puzzle/route.ts:86-119 | A created puzzle is the first passing iteration's deal, valid for the weight table, stored with `roundToSum100` of that iteration's odds and with that difficulty. |
| PuzzleScript.DrawUntilInGate | scripts/generate-puzzles.ts:88-100 | The retry loop ends with a deal the generator made and its odds. Either the odds are in the gate or 51 draws were made. |
| PuzzleScript.RunDay | scripts/generate-puzzles.ts:72-122 | A date that has a puzzle is skipped. An inserted row is for a free date, has four hands summing to 100 and, in the corrected version, odds inside the gate. |
| PuzzleScript.RunRowsOk | scripts/generate-puzzles.ts:72-122 | If every step of the day loop inserts only rows satisfying a property, so does the whole run. |
| PuzzleScript.RunDays | scripts/generate-puzzles.ts:72-122 | Every day the loop inserts lies between the starting day and the day count. |
| PuzzleScript.DayCountValues | scripts/generate-puzzles.ts:66 | 30 days by default; the decimal text of `n` gives `n` days. |
| PuzzleScript.DayCount | scripts/generate-puzzles.ts:66 | Non-numeric text gives no days, since the loop bound is NaN. |
| PuzzleScript.RunScript | scripts/generate-puzzles.ts:54-125 | The script stops for missing credentials exactly when the URL or key is unset. Every inserted day is below the day count. |
| PuzzleScript.InsertedRowsValid | scripts/generate-puzzles.ts:72-122 | Every inserted row is for a free date, holds a valid deal for the weight table with percentages summing to 100 and, in the corrected version, odds in the gate. |
| PuzzleScript.AsWrittenFillsFreeDays | scripts/generate-puzzles.ts:72-122 | A run that does not throw inserts a puzzle for exactly the days in range that have none. |
| PuzzleScript.NeverInGateRunsOut | scripts/generate-puzzles.ts:92-100 | When no deal passes the gate, the loop ends after its 51st draw. |
| PuzzleScript.AsWrittenInsertsOutOfGate | scripts/generate-puzzles.ts:92-102 | As written, a day whose every deal fails the gate still inserts the last deal, with odds outside [5, 50]. |
| PuzzleScript.CorrectedInsertsOnlyInGate | scripts/generate-puzzles.ts:92-102 | Corrected, every inserted puzzle has odds in the gate, and the day of the example above is given up. |
| GameConfig.BaseScore | lib/game-config.ts:8-11 | The base score is between 0 and 300, a multiple of 100, and positive exactly for 1 to 3 guesses. |
| GameConfig.BaseScoreStrictlyDecreasing | lib/game-config.ts:8-11 | Each further guess costs exactly 100 points. |
| GameConfig.BaseScoreValues | lib/game-config.ts:5-11 | 300, 200 and 100 for one, two and three guesses; 0 outside. |
| Scoring.TimeBonus | lib/utils/scoring.ts:13 | The bonus is never negative and at most 100 for non-negative times. It is 0 exactly after 297 seconds, and otherwise the floor of `100 - t/3`. |
| Scoring.CalculateScore | lib/utils/scoring.ts:8-15 | The score lies between the base score and the base score plus 100, and equals the base exactly after 297 seconds. |
| Scoring.TimeBonusWholeSeconds | lib/utils/scoring.ts:13 | For whole seconds up to 300 the bonus is `(300 - t) div 3`. |
| Scoring.ScoreNonIncreasingInTime | lib/utils/scoring.ts:13 | A slower solve never scores more. |
| Scoring.ScoreValues | lib/utils/scoring.ts:8-15 | `calculateScore(1, 0)` = 400, `(1, 300)` = 300, `(2, 60)` = 280, `(3, 0)` = 200. |
| Validation.ValidateGuesses | lib/utils/validation.ts:1-26 | Valid exactly for 4 guesses summing to 100, each a whole number in [0, 100]. The count is checked first, then the sum, whose error carries the total. |
| Validation.MessagesMention | lib/utils/validation.ts:4-14 | The count error says "exactly 4"; the sum error mentions 100 and shows the total. |
| Validation.OutOfRangeRejected | lib/utils/validation.ts:16-23 | A negative entry or one above 100 is never accepted. |
| SolvedDistribution.CountWins | lib/utils/solved-distribution.ts:10-13 | A missing or empty distribution has no wins. |
| SolvedDistribution.BumpLookupSame | lib/utils/solved-distribution.ts:32-40 | After incrementing, the key holds its old count plus one, counting a missing key as 0. |
| SolvedDistribution.BumpLookupOther | lib/utils/solved-distribution.ts:32-40 | Incrementing a key leaves every other key as it was. |
| SolvedDistribution.BumpCount | lib/utils/solved-distribution.ts:32-40 | Incrementing adds exactly one to the sum of the counts. |
| SolvedDistribution.BumpAppendsNew | lib/utils/solved-distribution.ts:32-40 | A key not yet present is added with count 1, every existing entry unchanged. The model appends it last (see Left out). |
| SolvedDistribution.LookupSomeIff | lib/utils/solved-distribution.ts:32-40 | `d[key]` is defined exactly when the key is one of the distribution's keys. |
| SolvedDistribution.IncrementSolvedSpec | lib/utils/solved-distribution.ts:32-40 | Key `String(g)` is raised by one, or created at one. Every other key keeps its count and the keys stay distinct. `countWins` grows by exactly one. |
| SolvedDistribution.AverageGuesses | lib/utils/solved-distribution.ts:16-29 | The average is 0 when there are no wins. |
| SolvedDistribution.AverageWithin | lib/utils/solved-distribution.ts:16-29 | With guess counts in `lo..hi` and at least one win, the average lies in `lo..hi`. |
| SolvedDistribution.RecordSnoc | lib/utils/solved-distribution.ts:32-40 | Recording one more game is one more `incrementSolved` on the distribution so far. |
| SolvedDistribution.RecordMean | lib/utils/solved-distribution.ts:16-40 | Recording games one by one makes the average the mean of their guess counts. |
| SolvedDistribution.RecordTotals | lib/utils/solved-distribution.ts:10-40 | Recording `n` games gives `n` wins, and a weighted sum equal to the sum of their guess counts. |
| SolvedDistribution.DistributionExample | lib/utils/solved-distribution.ts:10-40 | `{1: 5, 2: 3, 3: 2}` has 10 wins averaging 1.7; increments of `{}`, `{2: 3}` and null give `{2: 1}`, `{2: 4}` and `{1: 1}`. |
| DemoMode.GetUseDemo | lib/demo-mode.ts:19-28 | "fail" exactly in production without a configured backend. Otherwise demo exactly when demo is asked for or the backend is not configured. |
| DemoMode.NeverFailsOutsideProduction | lib/demo-mode.ts:19-28 | Outside production the answer is never "fail", and without a backend it is the demo. |
| DemoMode.PlaceholderUrl | lib/demo-mode.ts:10-13 | A URL containing "placeholder" counts as unconfigured. |
| LeaderboardSort.SortDailyLeaderboard | lib/utils/leaderboard-sort.ts:7-27 | The result is a permutation of the input, sorted by the comparator. |
| LeaderboardSort.WinnersFirst | lib/utils/leaderboard-sort.ts:17 | Every solved entry precedes every unsolved one. |
| LeaderboardSort.WinnersByGuessesThenTime | lib/utils/leaderboard-sort.ts:18-22 | Solved entries run by guesses used, then by time. |
| LeaderboardSort.LosersByPercentDiff | lib/utils/leaderboard-sort.ts:23-25 | Unsolved entries run by percentage error, a missing one counting as 999. |
| LeaderboardSort.TiesKeepInputOrder | lib/utils/leaderboard-sort.ts:16 | Entries the comparator calls equal keep their input order. |
| Submit.GetFeedback | app/api/puzzle/submit/route.ts:31-35 | Exact exactly when the guess equals the actual value; high exactly when above; low exactly when below. |
| Submit.ActualAt | app/api/puzzle/submit/route.ts:185-192 | A position no hand has reads as 0. |
| Submit.ActualAtDistinct | app/api/puzzle/submit/route.ts:185-192 | With distinct positions, the lookup at a hand's position gives that hand's percentage. A position without a hand reads as 0. |
| Submit.MarkGuesses | app/api/puzzle/submit/route.ts:189-193 | One mark per guess, keeping its position and percent, judged against the actual percentage at its position. |
| Submit.SolvedIffAllCorrect | app/api/puzzle/submit/route.ts:195 | Solved exactly when every guess equals the actual percentage at its position. |
| Submit.PercentDiff | app/api/puzzle/submit/route.ts:18-29 | The summed absolute error is never negative. |
| Submit.PercentDiffZeroIffSolved | app/api/puzzle/submit/route.ts:18-29 | The summed error is never negative, and it is 0 exactly when the puzzle is solved. |
| Submit.TotalScore | app/api/puzzle/submit/route.ts:211-215 | The score is 0 until the game is over. For an attempt in range it is positive exactly when the game is over. |
| Submit.FewerGuessesScoreMore | app/api/puzzle/submit/route.ts:211-215 | Solving in fewer guesses scores more, at the same time. |
| Submit.LossScoresAsLastGuess | app/api/puzzle/submit/route.ts:211-215 | A loss on the last guess scores as a solve on it. |
| Submit.GuessesRemaining | app/api/puzzle/submit/route.ts:288 | Never negative, 0 exactly from the third guess on, and otherwise the guesses used plus the remaining ones make three. |
| Submit.RunningMean | app/api/puzzle/submit/route.ts:365-368 | The new mean times `n + 1` is the old total plus the new value. |
| Submit.AverageAfter | app/api/puzzle/submit/route.ts:365-368 | The new average error times the new game count is the old total error plus this game's error. |
| Submit.UpdateUserStats | app/api/puzzle/submit/route.ts:319-380 | The stats update does the following: <br>- one more game, and one more failed game exactly on a loss; <br>- one more win on a solve; <br>- the distribution is the old one (empty when absent), bumped at the guess count on a win; <br>- the streak is 0 after a loss, goes on after yesterday's game, and restarts at 1 on a win otherwise; <br>- the best streak is the larger of the old best and the new streak; <br>- the score adds up and the error is a running mean; <br>- the average guesses follows the distribution, and the last date is the puzzle's. |
| Submit.UpdateKeepsConsistent | app/api/puzzle/submit/route.ts:319-380 | Wins plus losses stay equal to the games played, and the streak stays within the best streak. |
| Submit.Score | app/api/puzzle/submit/route.ts:189-220 | Scoring gives the marks, the solve, the total score and the error of the guesses. |
| Submit.RankOf | app/api/puzzle/submit/route.ts:290-300 | The rank is the player's first 1-based place in the sorted rows that have a guess. With no such row of the player, there is no rank. |
| Submit.HandleDemo | app/api/puzzle/submit/route.ts:67-122 | Guesses that fail validation are refused, and so is an attempt number given outside 1 to 3. A missing attempt passes the range check. Otherwise the guesses are marked against the fixed demo answers, with solve and error taken from those marks and nothing stored. An attempt in range gives `3 - attempt` guesses remaining and a score once the game is over. A missing attempt gives `NaN` remaining guesses, and a `NaN` score exactly when solved. |
| Submit.HandleStored | app/api/puzzle/submit/route.ts:159-316 | A successful stored submission always saves the row. |
| Submit.Handle | app/api/puzzle/submit/route.ts:37-317 | The route answers "service unavailable" exactly when demo mode fails. A success has valid guesses and no attempt outside 1 to 3. Off the demo puzzle the attempt is also present. The demo puzzle is answered as HandleDemo answers it. A saved row needs a signed-in player whose earlier record is neither solved nor out of guesses. |
| Submit.Status | app/api/puzzle/submit/route.ts:37-317 | 200 exactly for a submission; 400 exactly for the request errors. |
| Submit.AttemptOutOfRangeRefused | app/api/puzzle/submit/route.ts:149-157 | An attempt number given outside 1 to 3 is refused before anything is scored or stored. |
| Submit.StoredSubmission | app/api/puzzle/submit/route.ts:185-316 | A stored submission does the following: <br>- it appends the attempt to the history; <br>- it records the attempt as the guesses used; <br>- it is solved exactly when every guess is right, with error 0 exactly then; <br>- it scores by the rule; <br>- it reports the score, updates the statistics and may rank only once the game is over. |
| Submit.DemoSubmission | app/api/puzzle/submit/route.ts:67-122 | A valid demo submission is answered, even without an attempt number, and nothing is stored. It is solved exactly when every guess is the demo answer at its position. The error is 0 exactly when it is solved. The remaining guesses are `NaN` exactly when the attempt is missing. |
| Leaderboard.Limit | app/api/leaderboard/route.ts:14 | The limit is at most 100 and 50 by default. It is NaN exactly for a non-numeric parameter. |
| Leaderboard.EffectiveLimit | app/api/leaderboard/route.ts:14 | The clamped rule keeps the limit in [0, 100]; the rule as written is the limit above. |
| Leaderboard.Numbered | app/api/leaderboard/route.ts:88-93 | Row `i` gets rank `i + 1`. |
| Leaderboard.UserRank | app/api/leaderboard/route.ts:115-117 | The rank is the first 1-based place of the player in the full sorted list, and undefined exactly when absent. |
| Leaderboard.UserRankAtMost | app/api/leaderboard/route.ts:115-117 | A player with a row at place `i + 1` has a rank of at most `i + 1`, and exactly `i + 1` when no other row is theirs. |
| Leaderboard.AllTimeOrder | app/api/leaderboard/route.ts:69-79 | More wins first, then the lower average guesses with none counting as 999, then the lower average error with none counting as 999. |
| Leaderboard.AllTimeSorted | app/api/leaderboard/route.ts:67-79 | The sorted list is a permutation of the rows with games played, ordered by the all-time comparator. |
| Leaderboard.AllTimeLeIsPreorder | app/api/leaderboard/route.ts:69-79 | The all-time comparator is total and transitive. |
| Leaderboard.AllTimeBoard | app/api/leaderboard/route.ts:56-123 | The rows with games played, sorted, are cut to exactly as many entries as `slice(0, limit)` keeps. Entry `i` is rank `i + 1` with the columns of the `i`-th sorted row and its display name. The user rank is taken in the full list, and the board is the non-demo "alltime" one. |
| Leaderboard.DailySorted | app/api/leaderboard/route.ts:161-162 | A permutation of the games with at least one guess, sorted by the daily comparator. |
| Leaderboard.DailyBoard | app/api/leaderboard/route.ts:156-192 | The sorted daily list is cut to exactly as many entries as `slice(0, limit)` keeps. Entry `i` is rank `i + 1` with the columns of the `i`-th sorted game, which has a guess. The user rank is taken in the full sorted list, and the board is the non-demo "daily" one. |
| Leaderboard.DailyRows | app/api/leaderboard/route.ts:170-183 | One row per game kept, in order: row `i` is rank `i + 1` with the game's player, display name, result, guess count, time and error. |
| Leaderboard.Handle | app/api/leaderboard/route.ts:11-193 | "Service unavailable" exactly when demo mode fails. Otherwise the board is the empty demo board exactly when demo is on or the admin client is missing. Else `type=alltime` gives the all-time board, and any other type gives the daily board of today's games, or an empty daily board without a puzzle. Ranks run 1, 2, … and there are at most `limit` entries. |
| Leaderboard.DailyRankMatchesRow | app/api/leaderboard/route.ts:170-187 | The player's rank is at most the place of any row of theirs, and equals it when each player has one row. |
| Leaderboard.AsWrittenNegativeLimitOverflows | app/api/leaderboard/route.ts:14-163 | `?limit=-1` lists every finished game but the last, so more than 100 once there are more than 101. |
| Leaderboard.ClampedLimitBounded | app/api/leaderboard/route.ts:14-163 | With the limit clamped, no request lists more than 100 rows, and a negative limit lists none. |
| Cleanup.FilteredIds | scripts/cleanup-for-launch.ts:38-44 | An id is listed exactly when some kept profile has it. |
| Cleanup.SplitProfiles | scripts/cleanup-for-launch.ts:38-44 | Every profile lands on exactly one side: the test ids are those of profiles with a test nickname, and the kept ids the others. |
| Cleanup.TestAndKeptDisjoint | scripts/cleanup-for-launch.ts:38-44 | With one profile per user, no user is both deleted and kept. |
| Cleanup.TestAccountIgnoresCase | scripts/cleanup-for-launch.ts:21-39 | Whether an account is a test account does not change when its nickname is lower-cased first. |
| Cleanup.TestNicknameIgnoresCase | scripts/cleanup-for-launch.ts:21-39 | "Num2" is a test account; "num22" is not. |
| Cleanup.StaleGames | scripts/cleanup-for-launch.ts:89-91 | A game is deleted exactly when its puzzle is not one of today's. |
| Cleanup.RemainingGames | scripts/cleanup-for-launch.ts:89-91 | A game survives exactly when its puzzle is one of today's. |
| Cleanup.StaleAndRemainingPartition | scripts/cleanup-for-launch.ts:89-91 | Deleted and surviving games together are all the games, each once. |
| Cleanup.FoldInvariants | scripts/cleanup-for-launch.ts:160-173 | The fold does the following: <br>- each win adds one to the distribution's win count and each loss one to the failed count; <br>- scores and errors are summed with null as 0; <br>- the best streak never drops and bounds the current one; <br>- a loss ends the streak and a win leaves it at least 1; <br>- the last date is the last non-empty one. |
| Cleanup.FoldDistribution | scripts/cleanup-for-launch.ts:160-163 | Starting from an empty distribution, the fold's distribution is the one `incrementSolved` builds from the guess counts of the won games, one at a time in the order visited. Losses leave it unchanged. |
| Cleanup.ByDateOrder | scripts/cleanup-for-launch.ts:143-146 | The visiting order is a permutation of the games, sorted by date. |
| Cleanup.Recompute | scripts/cleanup-for-launch.ts:134-191 | A player with no games left has the statistics cleared instead of rewritten. |
| Cleanup.RecomputeCounts | scripts/cleanup-for-launch.ts:160-191 | The total is the number of games; wins plus losses make the total; losses are the unsolved games. |
| Cleanup.RecomputeDistribution | scripts/cleanup-for-launch.ts:160-183 | The upserted `solved_distribution` is built from the won games in date order. Their number is the count of won games. `average_guesses` is the mean of their guess counts, or 0 without a win. |
| Cleanup.RecomputeScore | scripts/cleanup-for-launch.ts:170-182 | The total score is the sum over all the games, with null as 0. |
| Cleanup.RecomputeMeanError | scripts/cleanup-for-launch.ts:171-184 | The average error is the summed error over the number of games. |
| Cleanup.RecomputeStreaks | scripts/cleanup-for-launch.ts:160-187 | The streak never exceeds the best streak, and it is 0 exactly when the last game visited, one with the latest date, is lost. |
| Cleanup.Run | scripts/cleanup-for-launch.ts:24-194 | The test users are deleted. Without a puzzle today nothing else happens. Otherwise exactly the kept users' games on other puzzles are deleted, and each kept user is rewritten, or cleared exactly when no game today remains. |
| Cleanup.RunRecomputesFromToday | scripts/cleanup-for-launch.ts:113-191 | Each kept player's statistics are recomputed from exactly their games of today's puzzles. |
| ShareText.EmojiRoundTrip | lib/utils/share-text.ts:3-7 | Exact, high and low map to 🟩, 🟦, 🟧, and each emoji reads back as its feedback. |
| ShareText.FeedbackAt | lib/utils/share-text.ts:42-46 | A position without a guess reads as exact; otherwise the last guess at the position counts. |
| ShareText.EmojiRow | lib/utils/share-text.ts:45-47 | A row has exactly four emoji. |
| ShareText.EmojiRowDecodes | lib/utils/share-text.ts:40-47 | The row reads back as the feedback at positions 1 to 4 in order, without a line break. |
| ShareText.Rows | lib/utils/share-text.ts:41-49 | One row per attempt, in order, each the emoji row of its attempt. |
| ShareText.AppUrl | lib/utils/share-text.ts:51 | An unset or empty variable gives the default site URL. |
| ShareText.ResultLineShape | lib/utils/share-text.ts:36-38 | The result line is "I Won/Lost, using g/3 guesses." on one line. |
| ShareText.ShareTextLines | lib/utils/share-text.ts:33-55 | The text splits into 3 + attempts + 2 lines: the title, the date, the result line, one row per attempt in order, an empty line and the visit line. |
| ShareText.ShareLinesUnbroken | lib/utils/share-text.ts:33-55 | No line of the text holds a line break. |
| ShareText.MissingAndRepeatedPositions | lib/utils/share-text.ts:42-46 | An attempt without guesses shows four 🟩; of two guesses at one position the later one shows. |
| ShareText.ShareRowExample | lib/utils/share-text.ts:40-49 | A guess that is high, exact, low, low renders as 🟦🟩🟧🟧. |
| Redirect.Pathname | lib/auth/redirect.ts:11 | The checked path is a prefix of the trimmed text, with no `?` or `#`. |
| Redirect.GetSafeRedirect | lib/auth/redirect.ts:1-12 | The result is always one of the five allowed paths, and `/game` for a missing or empty input. |
| Redirect.PlainPathChecked | lib/auth/redirect.ts:10-12 | A plain local path is kept exactly when it is allowed. |
| Redirect.AllowedPathsKept | lib/auth/redirect.ts:1-12 | Every allowed path is returned unchanged. |
| Redirect.GetSafeRedirectIdempotent | lib/auth/redirect.ts:1-12 | Applying the function to its own result changes nothing. |
| Redirect.RedirectComesFromInput | lib/auth/redirect.ts:9-12 | A result other than the fallback is the input's own path. The trimmed input begins with one slash, starts with the result, and goes on only with `?` or `#`. |
| Redirect.ProtocolRelativeRefused | lib/auth/redirect.ts:10 | `//evil.com` gives `/game`. |
| Redirect.OtherHostRefused | lib/auth/redirect.ts:10 | `https://evil.com` gives `/game`. |
| Redirect.LookalikeRefused | lib/auth/redirect.ts:11-12 | `/game//evil.com` gives `/game`. |
| Redirect.UnlistedRefused | lib/auth/redirect.ts:12 | `/admin` gives `/game`. |
| Redirect.MissingRedirect | lib/auth/redirect.ts:8 | Null or the empty string gives `/game`. |
| Redirect.SuffixIgnored | lib/auth/redirect.ts:11-12 | A query or fragment after a plain path does not change the verdict. |
| Redirect.FragmentExample | lib/auth/redirect.ts:11 | `/stats#section` gives `/stats`. |
| Redirect.QueryExample | lib/auth/redirect.ts:11 | `/game?demo=1` gives `/game`. |
| Signup.CollapseWhitespace | app/api/auth/signup/route.ts:13 | The result is no longer than the input and holds only `_` and non-whitespace characters of the input. |
| Signup.WhitespaceRun | app/api/auth/signup/route.ts:13 | A whitespace run between non-whitespace text becomes one `_`. |
| Signup.Slugify | app/api/auth/signup/route.ts:9-16 | The slug is never empty, at most 32 characters long, and made only of `[a-z0-9_]`. |
| Signup.OrUser | app/api/auth/signup/route.ts:15 | An empty slug becomes "user"; any other slug is kept. |
| Signup.SlugifyIdempotent | app/api/auth/signup/route.ts:9-16 | A slug is its own slug. |
| Signup.SlugFallback | app/api/auth/signup/route.ts:14-15 | Text with no letter, digit, underscore or whitespace gives "user". |
| Signup.Check | app/api/auth/signup/route.ts:27-52 | The checks run in order: nickname present, then password present, then trimmed nickname of 2 to 30 characters, then password of at least 6. Each refusal happens exactly when the earlier checks pass and its own fails. A success carries the trimmed nickname. |
| Signup.AuthEmailParts | app/api/auth/signup/route.ts:54-56 | The address is the slug, `_`, the id, `@` and the domain, and the part before the first `@` starts with a slug character. |
| Signup.Domain | app/api/auth/signup/route.ts:55 | An unset or empty variable gives the default e-mail domain. |
| Signup.Classify | app/api/auth/signup/route.ts:68-85 | "May already exist" exactly for "already registered" or `user_already_exists`. Otherwise "nickname taken" exactly when the message mentions nickname or unique. Otherwise the service's own non-empty message, or "Sign up failed". |
| Signup.Handle | app/api/auth/signup/route.ts:22-101 | An unreadable body gives 500; a failed check gives 400 with its message. After a passing check, a successful sign-up always signs in, with the "check your email" message exactly when no session came back, and a service error always gives 400 with its rephrased message. A sign-in happens only that way. |
| Signup.RefusalStatus | app/api/auth/signup/route.ts:22-101 | Every refusal is a 400 except the unreadable body, which is a 500. |
| VersionSync.UpdateLine | scripts/sync-version-to-readme.ts:21 | Every rendered update starts with `- v`. |
| VersionSync.RenderSplits | scripts/sync-version-to-readme.ts:21 | Without line breaks in versions and notes, the rendered text splits back into the update lines, one per update in order. |
| VersionSync.Splice | scripts/sync-version-to-readme.ts:24-34 | Nothing is written exactly when a marker is missing. Otherwise the output is the text up to the end of the start marker, a line break, the lines, a line break, and the text from the end marker on. |
| VersionSync.Sync | scripts/sync-version-to-readme.ts:15-34 | The script writes nothing exactly when the README lacks one of the two markers. |
| VersionSync.SplicePreserves | scripts/sync-version-to-readme.ts:32-34 | The text before the start marker, the marker itself and the text from the end marker on survive verbatim. |
| VersionSync.SpliceIdempotent | scripts/sync-version-to-readme.ts:24-34 | Splicing the same lines again changes nothing, provided the start marker precedes the end marker and the lines hold no end marker. |
| VersionSync.SyncIdempotent | scripts/sync-version-to-readme.ts:15-34 | Running the script twice with the same updates gives the text of the first run, provided the start marker precedes the end marker and no update line contains the end marker. |

## Left out

- Equity computation (`calculatePreFlopOdds`) is a parameter. It uses random sampling and a hand evaluator of a foreign library; the model receives four reals per deal.
- Randomness: every `Math.random()` call is a draw read from a parameter stream. No uniformity or distribution property is stated.
- Database queries, inserts, upserts and deletes, the auth service, HTTP plumbing and console output are parameters or left out. Failed deletions in the clean-up script are not modelled: every listed guess is taken as deleted.
- Dates and the clock are opaque strings: tomorrow, today, yesterday, `toISOString`, and the date parser.
- The clean-up script's dry-run mode prints and changes nothing, and is left out.
- A thrown exception inside a route's `try` other than the modelled ones, such as a database exception, is not modelled.
- Floating point: equities, guesses, times and averages are exact reals, so rounding error in the running averages and in `total !== 100` is not modelled.
- `toLowerCase` maps only ASCII letters. `localeCompare` on dates is taken as code-unit order, which agrees on `YYYY-MM-DD` strings.
- `String(n)` and `parseInt` cover decimal integers. A non-integer number rendered into a key or message goes through a parameter.
- SolvedDistribution.BumpAppendsNew: a new key goes last. A JavaScript object lists integer-like keys such as "1" and "2" in ascending order instead, so the model's key order can differ from the stored object's. No value depends on that order: the win count and the average add over the entries. Keys of other shapes and non-number counts in stored JSON are not modelled.
- Submit.HandleDemo: an attempt number is a whole number or missing. A fractional attempt such as 1.5 also passes the range checks, on the demo path and off it, and `getBaseScore(1.5)` is 250; that case is not modelled.
- Submit.Handle: the 400 answers for a body that is not JSON ("Invalid request body"), for a missing `guesses` field and for a `timeInSeconds` that is not a finite number are not modelled. The body is a parsed record whose guesses are a list and whose time is a real, so these inputs cannot be written. Only an empty puzzle id and a missing or zero attempt number give "Missing required fields".
- Null statistics fields read as 0, as the source's `?? 0` does.
- `generateShortId` is a parameter: its 8 base-36 characters are not modelled, only that the id holds no `@`.
- The version file is read through `JSON.parse`, so the updates are a parameter. The console messages of the version script are left out.
- VersionSync.SyncIdempotent: requires the start marker to precede the end marker, and no update line to contain the end marker; the script checks neither. With the markers swapped, or with a note holding `<!-- VERSION_SECTION_END -->`, a second run finds the end marker elsewhere and differs.
- HandFamilies.SampleFamily: requires a non-empty table. The source reads `entries[-1]` on an empty table and fails, and every table `parseWeights` yields has the eight default keys.
- The lookalike and protocol tests of the redirect are restated as examples. `trim` follows the ECMAScript whitespace set.
- The share-text tests that expect "Poker Wordle", ✓, ✗ and 🟨 describe an older format. The model follows the code, which writes "Hold'emle", the result sentence and 🟧.
- The comments of the cron route say the default date is today; the code uses tomorrow, and so does the model.
- The React pages, the login route, the middleware, the other admin scripts and the configuration files are outside the modelled core.

## Findings

| source | as written | input that shows it | evidently intended | confidence | as-written member | corrected member |
|---|---|---|---|---|---|---|
| scripts/generate-puzzles.ts:92-102 | After the 51st draw the loop breaks, and the last deal is rounded and inserted whatever its odds | A generator whose every deal has one hand at 60% | A date whose draws never pass the fairness gate gets no puzzle, as the cron route answers "could not generate" | medium, not executed | PuzzleScript.AsWrittenInsertsOutOfGate | PuzzleScript.CorrectedInsertsOnlyInGate |
| app/api/leaderboard/route.ts:14 | `Math.min(100, parseInt(limit))` lets a negative limit through, and `slice(0, -1)` then drops only the last row | `?limit=-1` on a day with 102 finished games lists 101 | The list holds at most 100 rows | high, not executed | Leaderboard.AsWrittenNegativeLimitOverflows | Leaderboard.ClampedLimitBounded |
