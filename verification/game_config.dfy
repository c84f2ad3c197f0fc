/** `lib/game-config.ts`: the number of guesses a player has and the base
    score each guess count earns. */
module GameConfig {

  /** `MAX_GUESSES`. */
  const MAX_GUESSES: int := 3

  /** `getBaseScore(guessesUsed)`: 100 points for every guess left unused,
      counting the winning one; nothing outside `1..MAX_GUESSES`. */
  function BaseScore(guessesUsed: int): (s: int)
    ensures 0 <= s <= MAX_GUESSES * 100
    ensures s > 0 <==> 1 <= guessesUsed <= MAX_GUESSES
    ensures s % 100 == 0
  {
    if guessesUsed < 1 || guessesUsed > MAX_GUESSES then 0
    else (MAX_GUESSES - guessesUsed + 1) * 100
  }

  /** Each extra guess costs exactly 100 points. */
  lemma BaseScoreStrictlyDecreasing(g: int, h: int)
    requires 1 <= g < h <= MAX_GUESSES
    ensures BaseScore(g) - BaseScore(h) == (h - g) * 100
    ensures BaseScore(h) < BaseScore(g)
  {
  }

  /** 300, 200 and 100 points for one, two and three guesses. */
  lemma BaseScoreValues()
    ensures BaseScore(1) == 300 && BaseScore(2) == 200 && BaseScore(3) == 100
    ensures BaseScore(0) == 0 && BaseScore(MAX_GUESSES + 1) == 0
  {
  }
}
