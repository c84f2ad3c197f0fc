/** The scheduled route `app/api/cron/generate-daily-puzzle/route.ts`: after
    the secret and the configuration are checked, it draws up to fifty deals,
    keeps the first whose four equities all lie in [5, 50], and stores it as
    the puzzle of the target date. The database, the clock, `JSON.parse`,
    the date parser and the equity computation are parameters. */
module CronRoute {
  import opened Wrappers
  import opened Seqs
  import opened Random
  import opened Deck
  import opened HandFamilies
  import opened OddsRounding
  import opened DailyPuzzle

  /** The bound of `for (let attempt = 0; attempt < 50; attempt++)`. */
  const ATTEMPTS: nat := 50

  /** The loop variables `hands` and `odds` when the loop ends, and the
      value of `attempt` then (50 when it ran out). */
  datatype SearchEnd = SearchEnd(hands: Option<seq<Hand>>, odds: seq<real>, attempt: nat)

  /** The loop produced a puzzle: the negation of the check
      `!hands || odds.some((o) => o < 5 || o > 50)`. */
  predicate Found(s: SearchEnd) {
    s.hands.Some? && InGate(s.odds)
  }

  /** The loop from iteration `attempt` on. `generate(next)` is one call of
      the hand generator reading draws from `next`; `equity(attempt, hands)`
      is `calculatePreFlopOdds(hands)` in that iteration. A `null` deal
      overwrites `hands` but leaves `odds` as it was. */
  function Search(generate: nat -> Dealt, equity: (nat, seq<Hand>) -> Odds4, attempt: nat,
                  next: nat, hands: Option<seq<Hand>>, odds: seq<real>): (s: SearchEnd)
    requires attempt <= ATTEMPTS
    requires hands.Some? ==> |odds| == 4
    ensures s.hands.Some? ==> |s.odds| == 4
    ensures attempt <= s.attempt <= ATTEMPTS
    decreases ATTEMPTS - attempt
  {
    if attempt == ATTEMPTS then SearchEnd(hands, odds, attempt)
    else
      var d := generate(next);
      if d.hands.None? then Search(generate, equity, attempt + 1, d.next, None, odds)
      else
        var o := equity(attempt, d.hands.value);
        if InGate(o) then SearchEnd(d.hands, o, attempt)
        else Search(generate, equity, attempt + 1, d.next, d.hands, o)
  }

  /** Where iteration `k` starts reading draws, the loop never having
      stopped before it. */
  function Cursor(generate: nat -> Dealt, k: nat): nat {
    if k == 0 then 0 else generate(Cursor(generate, k - 1)).next
  }

  /** The deal of iteration `k`. */
  function Deal(generate: nat -> Dealt, k: nat): Dealt {
    generate(Cursor(generate, k))
  }

  /** Iteration `k` deals four hands whose equities pass the gate. */
  predicate Passes(generate: nat -> Dealt, equity: (nat, seq<Hand>) -> Odds4, k: nat) {
    Deal(generate, k).hands.Some? && InGate(equity(k, Deal(generate, k).hands.value))
  }

  /** The loop finds a puzzle exactly when some iteration before the
      fiftieth passes the gate, and then it is the first such iteration's
      deal with that iteration's equities: stale odds kept across a `null`
      deal never reach the final check. */
  lemma {:induction false} SearchFindsFirstPass(generate: nat -> Dealt, equity: (nat, seq<Hand>) -> Odds4,
                                                attempt: nat, hands: Option<seq<Hand>>, odds: seq<real>)
    requires attempt <= ATTEMPTS
    requires hands.Some? ==> |odds| == 4
    requires hands.None? || !InGate(odds)
    ensures var s := Search(generate, equity, attempt, Cursor(generate, attempt), hands, odds);
            && (Found(s) <==> exists k :: attempt <= k < ATTEMPTS && Passes(generate, equity, k))
            && (Found(s) ==>
                  && s.attempt < ATTEMPTS
                  && Passes(generate, equity, s.attempt)
                  && s.hands == Deal(generate, s.attempt).hands
                  && s.odds == equity(s.attempt, s.hands.value)
                  && forall k :: attempt <= k < s.attempt ==> !Passes(generate, equity, k))
    decreases ATTEMPTS - attempt
  {
    if attempt < ATTEMPTS {
      var d := generate(Cursor(generate, attempt));
      assert Cursor(generate, attempt + 1) == d.next;
      if d.hands.None? {
        SearchFindsFirstPass(generate, equity, attempt + 1, None, odds);
      } else if !InGate(equity(attempt, d.hands.value)) {
        SearchFindsFirstPass(generate, equity, attempt + 1, d.hands, equity(attempt, d.hands.value));
      } else {
        assert Passes(generate, equity, attempt);
      }
    }
  }

  /** The environment variables the route reads; the empty string stands
      for an unset variable, which JavaScript also treats as false. */
  datatype Env = Env(cronSecret: string, supabaseUrl: string, serviceRoleKey: string,
                     handFamilyWeights: string)

  /** The `Authorization` header and the `date` query parameter. */
  datatype Request = Request(authorization: Option<string>, date: Option<string>)

  /** Everything outside the route: `JSON.parse`; `new Date(text)` followed
      by `toISOString().split("T")[0]`, `None` for an invalid date; the
      formatted date of tomorrow; whether a puzzle exists for a date;
      whether the insert fails; the draws of `Math.random()`; the equities. */
  datatype World = World(
    parseJson: string -> Option<Weights>,
    parseDate: string -> Option<string>,
    tomorrow: string,
    puzzleExists: string -> bool,
    insertFails: bool,
    rand: nat -> Draw,
    equity: (nat, seq<Hand>) -> Odds4)

  /** The response. `Created` also carries the iteration that produced the
      puzzle and its raw equities, which the response body does not show. */
  datatype Response =
    | Unauthorized
    | MissingCredentials
    | InvalidDate
    | AlreadyExists(date: string)
    | CouldNotGenerate(date: string)
    | InsertFailed(date: string)
    | Created(puzzle: Puzzle, attempt: nat, odds: seq<real>)

  /** The HTTP status of a response. */
  function Status(r: Response): (code: nat)
    ensures code == 200 <==> r.AlreadyExists? || r.Created?
    ensures code == 401 <==> r.Unauthorized?
    ensures code == 400 <==> r.InvalidDate?
  {
    match r
    case Unauthorized => 401
    case MissingCredentials => 500
    case InvalidDate => 400
    case AlreadyExists(_) => 200
    case CouldNotGenerate(_) => 500
    case InsertFailed(_) => 500
    case Created(_, _, _) => 200
  }

  /** `secret && authHeader === "Bearer " + secret`. */
  predicate Authorized(env: Env, req: Request) {
    env.cronSecret != [] && req.authorization == Some("Bearer " + env.cronSecret)
  }

  /** The date string: tomorrow without a (non-empty) `date` parameter. */
  function TargetDate(req: Request, world: World): (date: Option<string>)
    ensures req.date.None? ==> date == Some(world.tomorrow)
  {
    match req.date
    case None => Some(world.tomorrow)
    case Some(text) => if text == [] then Some(world.tomorrow) else world.parseDate(text)
  }

  /** The generator as the route calls it, with the parsed weight table. */
  function CronSource(env: Env, world: World): (generate: nat -> Dealt) {
    DealSource(ParseWeights(env.handFamilyWeights, world.parseJson), world.rand)
  }

  /** `GET(request)`. */
  function Handle(env: Env, req: Request, world: World): (r: Response)
    ensures r.Unauthorized? <==> !Authorized(env, req)
    ensures r.MissingCredentials? <==>
              Authorized(env, req) && (env.supabaseUrl == [] || env.serviceRoleKey == [])
    ensures r.InvalidDate? <==>
              Authorized(env, req) && env.supabaseUrl != [] && env.serviceRoleKey != [] && TargetDate(req, world).None?
    ensures r.AlreadyExists? <==>
              && Authorized(env, req) && env.supabaseUrl != [] && env.serviceRoleKey != []
              && TargetDate(req, world).Some? && world.puzzleExists(TargetDate(req, world).value)
    ensures r.AlreadyExists? ==> world.puzzleExists(r.date) && TargetDate(req, world) == Some(r.date)
    ensures r.Created? ==>
              && TargetDate(req, world) == Some(r.puzzle.date)
              && !world.puzzleExists(r.puzzle.date)
              && r.attempt < ATTEMPTS
              && InGate(r.odds) && |r.odds| == 4
              && |r.puzzle.hands| == 4
              && Sum(Percents(r.puzzle.hands)) == 100
  {
    if !Authorized(env, req) then Unauthorized
    else if env.supabaseUrl == [] || env.serviceRoleKey == [] then MissingCredentials
    else match TargetDate(req, world)
      case None => InvalidDate
      case Some(date) =>
        if world.puzzleExists(date) then AlreadyExists(date)
        else
          var weights := ParseWeights(env.handFamilyWeights, world.parseJson);
          var generate := DealSource(weights, world.rand);
          var s := Search(generate, world.equity, 0, 0, None, []);
          if !Found(s) then CouldNotGenerate(date)
          else
            SearchFindsFirstPass(generate, world.equity, 0, None, []);
            DealSourceSound(weights, world.rand);
            var puzzle := BuildPuzzle(date, s.hands.value, s.odds);
            if world.insertFails then InsertFailed(date)
            else Created(puzzle, s.attempt, s.odds)
  }

  /** With the request authorised, the configuration present, a valid date
      without a puzzle and a working insert, the route creates a puzzle
      exactly when one of the fifty iterations passes the gate; otherwise it
      answers that it could not generate one. */
  lemma CronCreatesIff(env: Env, req: Request, world: World)
    requires Authorized(env, req)
    requires env.supabaseUrl != [] && env.serviceRoleKey != []
    requires TargetDate(req, world).Some? && !world.puzzleExists(TargetDate(req, world).value)
    requires !world.insertFails
    ensures Handle(env, req, world).Created?
        <==> exists k :: 0 <= k < ATTEMPTS && Passes(CronSource(env, world), world.equity, k)
    ensures Handle(env, req, world).Created? || Handle(env, req, world).CouldNotGenerate?
  {
    SearchFindsFirstPass(CronSource(env, world), world.equity, 0, None, []);
  }

  /** A created puzzle is the deal of the first iteration that passes the
      gate: four hands of eight different cards from families of the weight
      table, stored at positions 1–4 with the rounded equities of that
      iteration and the difficulty of those percentages. */
  lemma CronCreatedPuzzle(env: Env, req: Request, world: World)
    requires Handle(env, req, world).Created?
    ensures var r := Handle(env, req, world);
            var weights := ParseWeights(env.handFamilyWeights, world.parseJson);
            var generate := CronSource(env, world);
            && Passes(generate, world.equity, r.attempt)
            && (forall k :: 0 <= k < r.attempt ==> !Passes(generate, world.equity, k))
            && Some(CardsColumn(r.puzzle.hands)) == Deal(generate, r.attempt).hands
            && ValidDeal(weights, CardsColumn(r.puzzle.hands))
            && r.odds == world.equity(r.attempt, CardsColumn(r.puzzle.hands))
            && Success(Percents(r.puzzle.hands)) == RoundToSum100(r.odds)
            && r.puzzle.difficulty == CalculateDifficulty(Percents(r.puzzle.hands))
            && forall i :: 0 <= i < 4 ==> r.puzzle.hands[i].position == i + 1
  {
    var r := Handle(env, req, world);
    var weights := ParseWeights(env.handFamilyWeights, world.parseJson);
    var generate := CronSource(env, world);
    SearchFindsFirstPass(generate, world.equity, 0, None, []);
    DealSourceSound(weights, world.rand);
    var s := Search(generate, world.equity, 0, 0, None, []);
    BuildPuzzleRounds(r.puzzle.date, s.hands.value, s.odds);
  }
}
