/** The bulk generator `scripts/generate-puzzles.ts`: for each of the next
    `PUZZLE_DAYS` days without a puzzle it deals hands until their equities
    lie in [5, 50], giving up after the fifty-first deal, and inserts the
    puzzle. The database, the clock, `JSON.parse` and the equity computation
    are parameters; the insert's own error is only logged and has no effect
    on the run. */
module PuzzleScript {
  import opened Wrappers
  import opened Seqs
  import opened Strings
  import opened Random
  import opened Deck
  import opened HandFamilies
  import opened OddsRounding
  import opened DailyPuzzle

  /** The script breaks out of the retry loop once `attempts > 50`. */
  const MAX_ATTEMPTS: nat := 50

  /** End of the `do … while` loop: `generateFourHands()` threw, or the last
      deal (read from `start`), its equities, the attempt count, the next
      unread draw and the number of equity computations so far. */
  datatype Retry =
    | Threw
    | Drawn(hands: seq<Hand>, odds: Odds4, attempts: nat, start: nat, next: nat, calls: nat)

  /** The `do … while` loop from attempt count `attempts`. A `null` deal
      makes `generateFourHands` throw, which ends the whole script; the
      `calls`-th equity computation is `equity(calls, hands)`. */
  function DrawUntilInGate(generate: nat -> Dealt, equity: (nat, seq<Hand>) -> Odds4,
                           attempts: nat, next: nat, calls: nat): (r: Retry)
    requires attempts <= MAX_ATTEMPTS
    ensures r.Drawn? ==>
              && attempts < r.attempts <= MAX_ATTEMPTS + 1
              && calls < r.calls
              && generate(r.start).hands == Some(r.hands)
              && r.odds == equity(r.calls - 1, r.hands)
              && (InGate(r.odds) || r.attempts == MAX_ATTEMPTS + 1)
    decreases MAX_ATTEMPTS - attempts
  {
    var d := generate(next);
    if d.hands.None? then Threw
    else
      var odds := equity(calls, d.hands.value);
      var count := attempts + 1;
      if count > MAX_ATTEMPTS then Drawn(d.hands.value, odds, count, next, d.next, calls + 1)
      else if !InGate(odds) then DrawUntilInGate(generate, equity, count, d.next, calls + 1)
      else Drawn(d.hands.value, odds, count, next, d.next, calls + 1)
  }

  /** How a run treats a date whose fifty-first deal still fails the gate:
      as written it inserts that deal; corrected it skips the date. */
  datatype Variant = AsWritten | Corrected

  /** One inserted puzzle: the day offset `i` of the loop, the row and the
      raw equities it was rounded from. */
  datatype Insertion = Insertion(day: nat, puzzle: Puzzle, odds: Odds4)

  datatype Day = Skipped | Aborted | GaveUp | Inserted(puzzle: Puzzle, odds: Odds4)

  /** A day's outcome with the next unread draw and equity call. */
  datatype DayEnd = DayEnd(day: Day, next: nat, calls: nat)

  /** One iteration of the `for (let i = 0; i < days; i++)` loop. */
  function RunDay(variant: Variant, date: string, taken: bool, generate: nat -> Dealt,
                  equity: (nat, seq<Hand>) -> Odds4, next: nat, calls: nat): (d: DayEnd)
    requires DealsFour(generate)
    ensures d.day.Inserted? ==>
              && !taken && d.day.puzzle.date == date
              && |d.day.puzzle.hands| == 4
              && Sum(Percents(d.day.puzzle.hands)) == 100
              && (variant == Corrected ==> InGate(d.day.odds))
    ensures taken ==> d.day == Skipped
  {
    if taken then DayEnd(Skipped, next, calls)
    else match DrawUntilInGate(generate, equity, 0, next, calls)
      case Threw => DayEnd(Aborted, next, calls)
      case Drawn(hands, odds, _, _, next', calls') =>
        if variant == Corrected && !InGate(odds) then DayEnd(GaveUp, next', calls')
        else DayEnd(Inserted(BuildPuzzle(date, hands, odds), odds), next', calls')
  }

  /** The rows a run inserted, and whether it ended with an exception. */
  datatype Run = Run(inserted: seq<Insertion>, aborted: bool)

  /** The day loop from day `i` on, for any iteration body: `step(i, next,
      calls)` is the outcome of day `i` when it starts reading draws at
      `next` with `calls` equities computed so far. */
  function RunDays(step: (nat, nat, nat) -> DayEnd, days: nat, i: nat, next: nat, calls: nat): (r: Run)
    requires i <= days
    ensures forall j :: 0 <= j < |r.inserted| ==> i <= r.inserted[j].day < days
    decreases days - i
  {
    if i == days then Run([], false)
    else
      var d := step(i, next, calls);
      if d.day.Aborted? then Run([], true)
      else
        var rest := RunDays(step, days, i + 1, d.next, d.calls);
        if d.day.Inserted? then Run([Insertion(i, d.day.puzzle, d.day.odds)] + rest.inserted, rest.aborted)
        else rest
  }

  /** The body of the script's day loop: `dateOf(i)` is the formatted date
      `i` days after the start and `taken` answers the `select` on it. */
  function ScriptStep(variant: Variant, dateOf: nat -> string, taken: string -> bool,
                      generate: nat -> Dealt, equity: (nat, seq<Hand>) -> Odds4): (step: (nat, nat, nat) -> DayEnd)
    requires DealsFour(generate)
  {
    (i: nat, next: nat, calls: nat) => RunDay(variant, dateOf(i), taken(dateOf(i)), generate, equity, next, calls)
  }

  /** A row is inserted for day `i`'s date only when that date has no
      puzzle; it holds four hands some call of the generator dealt, its
      percentages sum to 100, and, corrected, its equities lie in the gate. */
  ghost predicate RowOk(variant: Variant, dateOf: nat -> string, taken: string -> bool,
                        generate: nat -> Dealt, ins: Insertion) {
    && !taken(dateOf(ins.day)) && ins.puzzle.date == dateOf(ins.day)
    && |ins.puzzle.hands| == 4
    && Sum(Percents(ins.puzzle.hands)) == 100
    && (exists n :: generate(n).hands == Some(CardsColumn(ins.puzzle.hands)))
    && (variant == Corrected ==> InGate(ins.odds))
  }

  /** A row every step inserts satisfies `ok`, whichever day and cursor. */
  ghost predicate StepRowsOk(step: (nat, nat, nat) -> DayEnd, ok: Insertion -> bool) {
    forall i, next, calls :: step(i, next, calls).day.Inserted? ==>
      ok(Insertion(i, step(i, next, calls).day.puzzle, step(i, next, calls).day.odds))
  }

  /** Then every row of the run satisfies `ok`. */
  lemma {:induction false} RunRowsOk(step: (nat, nat, nat) -> DayEnd, ok: Insertion -> bool,
                                     days: nat, i: nat, next: nat, calls: nat, j: nat)
    requires i <= days && StepRowsOk(step, ok)
    requires j < |RunDays(step, days, i, next, calls).inserted|
    ensures ok(RunDays(step, days, i, next, calls).inserted[j])
    decreases days - i
  {
    var d := step(i, next, calls);
    if !(d.day.Inserted? && j == 0) {
      RunRowsOk(step, ok, days, i + 1, d.next, d.calls, if d.day.Inserted? then j - 1 else j);
    }
  }

  /** The script's day body inserts only rows satisfying `RowOk`. */
  lemma ScriptRowsOk(variant: Variant, dateOf: nat -> string, taken: string -> bool,
                     generate: nat -> Dealt, equity: (nat, seq<Hand>) -> Odds4)
    requires DealsFour(generate)
    ensures StepRowsOk(ScriptStep(variant, dateOf, taken, generate, equity),
                       ins => RowOk(variant, dateOf, taken, generate, ins))
  {
    forall i: nat, next: nat, calls: nat {
      RunDayRow(variant, i, dateOf, taken, generate, equity, next, calls);
    }
  }

  lemma RunDayRow(variant: Variant, i: nat, dateOf: nat -> string, taken: string -> bool,
                  generate: nat -> Dealt, equity: (nat, seq<Hand>) -> Odds4, next: nat, calls: nat)
    requires DealsFour(generate)
    ensures var d := RunDay(variant, dateOf(i), taken(dateOf(i)), generate, equity, next, calls);
            d.day.Inserted? ==> RowOk(variant, dateOf, taken, generate, Insertion(i, d.day.puzzle, d.day.odds))
  {
    var d := RunDay(variant, dateOf(i), taken(dateOf(i)), generate, equity, next, calls);
    if d.day.Inserted? {
      var r := DrawUntilInGate(generate, equity, 0, next, calls);
      assert generate(r.start).hands == Some(CardsColumn(d.day.puzzle.hands));
    }
  }

  /** A day is `free` when every step on it either inserts or throws. */
  ghost predicate StepFillsFree(step: (nat, nat, nat) -> DayEnd, free: nat -> bool) {
    forall i, next, calls ::
      free(i) <==> step(i, next, calls).day.Inserted? || step(i, next, calls).day.Aborted?
  }

  /** Then a run that does not throw inserts a row for exactly the free
      days. */
  lemma {:induction false} RunFillsFree(step: (nat, nat, nat) -> DayEnd, free: nat -> bool,
                                        days: nat, i: nat, next: nat, calls: nat, k: nat)
    requires i <= k < days && StepFillsFree(step, free)
    requires !RunDays(step, days, i, next, calls).aborted
    ensures var r := RunDays(step, days, i, next, calls);
            free(k) <==> exists j :: 0 <= j < |r.inserted| && r.inserted[j].day == k
    decreases days - i
  {
    var r := RunDays(step, days, i, next, calls);
    var d := step(i, next, calls);
    var rest := RunDays(step, days, i + 1, d.next, d.calls);
    assert r == if d.day.Inserted? then Run([Insertion(i, d.day.puzzle, d.day.odds)] + rest.inserted, rest.aborted)
                else rest;
    if d.day.Inserted? {
      InsertedCons(Insertion(i, d.day.puzzle, d.day.odds), rest.inserted, k);
    }
    if k == i {
      assert !exists j :: 0 <= j < |rest.inserted| && rest.inserted[j].day == k;
    } else {
      RunFillsFree(step, free, days, i + 1, d.next, d.calls, k);
    }
  }

  /** Some insertion is for day `k` in `[x] + rest` exactly when `x` is or
      one in `rest` is. */
  lemma InsertedCons(x: Insertion, rest: seq<Insertion>, k: nat)
    ensures (exists j :: 0 <= j < |[x] + rest| && ([x] + rest)[j].day == k)
        <==> x.day == k || exists j :: 0 <= j < |rest| && rest[j].day == k
  {
    var s := [x] + rest;
    assert s[0] == x;
    if exists j :: 0 <= j < |s| && s[j].day == k {
      var j :| 0 <= j < |s| && s[j].day == k;
      if j > 0 {
        assert rest[j - 1].day == k;
      }
    }
    if exists j :: 0 <= j < |rest| && rest[j].day == k {
      var j :| 0 <= j < |rest| && rest[j].day == k;
      assert s[j + 1].day == k;
    }
  }

  /** Day `i`'s date has no puzzle yet. */
  function FreeDay(dateOf: nat -> string, taken: string -> bool): (free: nat -> bool) {
    (i: nat) => !taken(dateOf(i))
  }

  /** As written, a day without a puzzle always inserts one unless the
      generator throws. */
  lemma AsWrittenStepFillsFree(dateOf: nat -> string, taken: string -> bool,
                               generate: nat -> Dealt, equity: (nat, seq<Hand>) -> Odds4)
    requires DealsFour(generate)
    ensures StepFillsFree(ScriptStep(AsWritten, dateOf, taken, generate, equity), FreeDay(dateOf, taken))
  {
  }

  /** `parseInt(process.env.PUZZLE_DAYS || "30", 10)` as the bound of the
      day loop: `NaN` and negative values run no day. */
  function DayCount(puzzleDays: string): (n: nat)
    ensures (ParseInt(puzzleDays).None? && puzzleDays != []) ==> n == 0
  {
    match ParseInt(if puzzleDays == [] then "30" else puzzleDays)
    case None => 0
    case Some(v) => if v < 0 then 0 else v
  }

  /** Thirty days by default; a variable holding the decimal form of `n`
      runs `n` days. */
  lemma DayCountValues(n: nat)
    ensures DayCount("") == 30
    ensures DayCount(IntToString(n)) == n
  {
    DayCountDefault();
    DayCountDecimal(n);
  }

  lemma DayCountDefault()
    ensures DayCount("") == 30
  {
    var s := "30";
    ParseIntPair(s);
  }

  lemma DayCountDecimal(n: nat)
    ensures DayCount(IntToString(n)) == n
  {
    ParseIntOfIntToString(n);
    assert |NatToString(n)| >= 1;
  }

  datatype ScriptEnv = ScriptEnv(supabaseUrl: string, serviceRoleKey: string,
                                 handFamilyWeights: string, puzzleDays: string)

  /** `JSON.parse`, the formatted date `i` days from now, the `select` for
      an existing puzzle, the draws of `Math.random()` and the equities. */
  datatype ScriptWorld = ScriptWorld(
    parseJson: string -> Option<Weights>,
    dateOf: nat -> string,
    puzzleExists: string -> bool,
    rand: nat -> Draw,
    equity: (nat, seq<Hand>) -> Odds4)

  datatype Outcome = MissingCredentials | Finished(run: Run)

  /** `main()`. */
  function RunScript(variant: Variant, env: ScriptEnv, world: ScriptWorld): (o: Outcome)
    ensures o.MissingCredentials? <==> env.supabaseUrl == [] || env.serviceRoleKey == []
    ensures o.Finished? ==> forall j :: 0 <= j < |o.run.inserted| ==>
              o.run.inserted[j].day < DayCount(env.puzzleDays)
  {
    if env.supabaseUrl == [] || env.serviceRoleKey == [] then MissingCredentials
    else
      var weights := ParseWeights(env.handFamilyWeights, world.parseJson);
      DealSourceSound(weights, world.rand);
      var step := ScriptStep(variant, world.dateOf, world.puzzleExists, DealSource(weights, world.rand), world.equity);
      Finished(RunDays(step, DayCount(env.puzzleDays), 0, 0, 0))
  }

  /** Every row a run inserts is for a date without a puzzle, holds a valid
      deal for the weight table with percentages summing to 100, and,
      corrected, equities inside the gate. */
  lemma InsertedRowsValid(variant: Variant, env: ScriptEnv, world: ScriptWorld, j: nat)
    requires RunScript(variant, env, world).Finished?
    requires j < |RunScript(variant, env, world).run.inserted|
    ensures var ins := RunScript(variant, env, world).run.inserted[j];
            && !world.puzzleExists(world.dateOf(ins.day)) && ins.puzzle.date == world.dateOf(ins.day)
            && ValidDeal(ParseWeights(env.handFamilyWeights, world.parseJson), CardsColumn(ins.puzzle.hands))
            && Sum(Percents(ins.puzzle.hands)) == 100
            && (variant == Corrected ==> InGate(ins.odds))
  {
    var weights := ParseWeights(env.handFamilyWeights, world.parseJson);
    DealSourceSound(weights, world.rand);
    var generate := DealSource(weights, world.rand);
    var step := ScriptStep(variant, world.dateOf, world.puzzleExists, generate, world.equity);
    var ok := ins => RowOk(variant, world.dateOf, world.puzzleExists, generate, ins);
    ScriptRowsOk(variant, world.dateOf, world.puzzleExists, generate, world.equity);
    RunRowsOk(step, ok, DayCount(env.puzzleDays), 0, 0, 0, j);
  }

  /** As written, a run that does not throw inserts a puzzle for exactly the
      days in range whose date has none. */
  lemma AsWrittenFillsFreeDays(env: ScriptEnv, world: ScriptWorld, k: nat)
    requires RunScript(AsWritten, env, world).Finished?
    requires !RunScript(AsWritten, env, world).run.aborted
    requires k < DayCount(env.puzzleDays)
    ensures var r := RunScript(AsWritten, env, world).run;
            !world.puzzleExists(world.dateOf(k)) <==> exists j :: 0 <= j < |r.inserted| && r.inserted[j].day == k
  {
    var weights := ParseWeights(env.handFamilyWeights, world.parseJson);
    DealSourceSound(weights, world.rand);
    var generate := DealSource(weights, world.rand);
    var step := ScriptStep(AsWritten, world.dateOf, world.puzzleExists, generate, world.equity);
    AsWrittenStepFillsFree(world.dateOf, world.puzzleExists, generate, world.equity);
    RunFillsFree(step, FreeDay(world.dateOf, world.puzzleExists), DayCount(env.puzzleDays), 0, 0, 0, k);
    assert FreeDay(world.dateOf, world.puzzleExists)(k) == !world.puzzleExists(world.dateOf(k));
  }

  // ---------------------------------------------------------------------
  // Finding: the fifty-first deal is inserted even when it fails the gate
  // ---------------------------------------------------------------------

  /** Four ace-deuce hands, one per suit: a valid deal of the `all_ax`
      family under the default weights. */
  const ACE_DEUCES: seq<Hand> := [
    (Card(ACE, 0), Card(0, 0)), (Card(ACE, 1), Card(0, 1)),
    (Card(ACE, 2), Card(0, 2)), (Card(ACE, 3), Card(0, 3))]

  /** Equities no deal of which passes the gate: one hand above 50%. */
  const LOPSIDED: Odds4 := [60.0, 20.0, 10.0, 10.0]

  lemma AceDeucesValid()
    ensures ValidDeal(DEFAULT_WEIGHTS, ACE_DEUCES)
  {
    assert ACE_DEUCES[..0] == [];
    assert CardsOf(ACE_DEUCES[..1]) == [Card(ACE, 0), Card(0, 0)] by {
      assert ACE_DEUCES[..1][..0] == ACE_DEUCES[..0];
    }
    assert CardsOf(ACE_DEUCES[..2]) == [Card(ACE, 0), Card(0, 0), Card(ACE, 1), Card(0, 1)] by {
      assert ACE_DEUCES[..2][..1] == ACE_DEUCES[..1];
    }
    assert CardsOf(ACE_DEUCES[..3]) == [Card(ACE, 0), Card(0, 0), Card(ACE, 1), Card(0, 1),
                                        Card(ACE, 2), Card(0, 2)] by {
      assert ACE_DEUCES[..3][..2] == ACE_DEUCES[..2];
    }
    assert CardsOf(ACE_DEUCES) == [Card(ACE, 0), Card(0, 0), Card(ACE, 1), Card(0, 1),
                                   Card(ACE, 2), Card(0, 2), Card(ACE, 3), Card(0, 3)] by {
      assert ACE_DEUCES[..3] == ACE_DEUCES[..|ACE_DEUCES| - 1];
    }
    assert DEFAULT_WEIGHTS[0].0 == "all_ax";
    forall i | 0 <= i < 4 ensures FamilyHand(DEFAULT_WEIGHTS[0].0, ACE_DEUCES[i]) {
    }
  }

  /** When every deal fails the gate the loop runs until its fifty-first
      deal and returns that one. */
  lemma {:induction false} NeverInGateRunsOut(generate: nat -> Dealt, equity: (nat, seq<Hand>) -> Odds4,
                                              attempts: nat, next: nat, calls: nat)
    requires attempts <= MAX_ATTEMPTS
    requires forall n :: generate(n).hands.Some?
    requires forall c, h :: !InGate(equity(c, h))
    ensures DrawUntilInGate(generate, equity, attempts, next, calls).Drawn?
    ensures DrawUntilInGate(generate, equity, attempts, next, calls).attempts == MAX_ATTEMPTS + 1
    decreases MAX_ATTEMPTS - attempts
  {
    var d := generate(next);
    if attempts + 1 <= MAX_ATTEMPTS {
      NeverInGateRunsOut(generate, equity, attempts + 1, d.next, calls + 1);
    }
  }

  /** As written: with a generator that always deals `ACE_DEUCES` and
      equities that always give one hand 60%, the day's iteration inserts a
      puzzle whose equities fail the gate the cron route enforces. */
  lemma AsWrittenInsertsOutOfGate(date: string)
    ensures var generate := (n: nat) => Dealt(Some(ACE_DEUCES), n + 2);
            var equity := (c: nat, h: seq<Hand>) => LOPSIDED;
            DealsFour(generate) &&
            var d := RunDay(AsWritten, date, false, generate, equity, 0, 0);
            && d.day.Inserted? && d.day.odds == LOPSIDED && !InGate(d.day.odds)
            && d.day.puzzle == BuildPuzzle(date, ACE_DEUCES, LOPSIDED)
  {
    var generate := (n: nat) => Dealt(Some(ACE_DEUCES), n + 2);
    var equity := (c: nat, h: seq<Hand>) => LOPSIDED;
    assert !InGate(LOPSIDED) by {
      assert !(LOPSIDED[0] <= 50.0);
    }
    NeverInGateRunsOut(generate, equity, 0, 0, 0);
  }

  /** Corrected: the date is skipped when the last deal fails the gate, so
      every inserted puzzle's equities lie in [5, 50]; on the input above
      the day is given up. */
  lemma CorrectedInsertsOnlyInGate(date: string, generate: nat -> Dealt,
                                   equity: (nat, seq<Hand>) -> Odds4, next: nat, calls: nat)
    requires DealsFour(generate)
    ensures var d := RunDay(Corrected, date, false, generate, equity, next, calls);
            d.day.Inserted? ==> InGate(d.day.odds)
    ensures var generate' := (n: nat) => Dealt(Some(ACE_DEUCES), n + 2);
            var equity' := (c: nat, h: seq<Hand>) => LOPSIDED;
            DealsFour(generate') &&
            RunDay(Corrected, date, false, generate', equity', 0, 0).day == GaveUp
  {
    var generate' := (n: nat) => Dealt(Some(ACE_DEUCES), n + 2);
    var equity' := (c: nat, h: seq<Hand>) => LOPSIDED;
    assert !InGate(LOPSIDED) by {
      assert !(LOPSIDED[0] <= 50.0);
    }
    NeverInGateRunsOut(generate', equity', 0, 0, 0);
  }
}
