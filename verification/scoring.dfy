/** `calculateScore` of `lib/utils/scoring.ts`: the base score for the number
    of guesses plus a time bonus of up to 100 points that runs out after five
    minutes. Times are exact reals. */
module Scoring {
  import opened GameConfig

  /** `Math.max(0, Math.floor(100 - timeInSeconds / 3))`: one point per
      three seconds left of the first 300. */
  function TimeBonus(t: real): (b: int)
    ensures b >= 0
    ensures b == 0 <==> t > 297.0
    ensures b > 0 ==> b as real <= 100.0 - t / 3.0 < b as real + 1.0
    ensures t >= 0.0 ==> b <= 100
  {
    var f := (100.0 - t / 3.0).Floor;
    if f < 0 then 0 else f
  }

  /** `calculateScore(guessesUsed, timeInSeconds)`. */
  function CalculateScore(guessesUsed: int, t: real): (s: int)
    ensures BaseScore(guessesUsed) <= s
    ensures t >= 0.0 ==> s <= BaseScore(guessesUsed) + 100
    ensures s == BaseScore(guessesUsed) <==> t > 297.0
  {
    BaseScore(guessesUsed) + TimeBonus(t)
  }

  /** For a whole number of seconds up to 300 the bonus is
      `(300 - t) div 3`. */
  lemma TimeBonusWholeSeconds(t: int)
    requires 0 <= t <= 300
    ensures TimeBonus(t as real) == (300 - t) / 3
  {
    var q := (300 - t) / 3;
    var r := (300 - t) % 3;
    assert 300 - t == 3 * q + r && 0 <= r < 3;
    var x := 100.0 - t as real / 3.0;
    assert x == q as real + r as real / 3.0;
    assert q as real <= x < q as real + 1.0;
    assert x.Floor == q;
  }

  /** A slower solve never scores more. */
  lemma ScoreNonIncreasingInTime(guessesUsed: int, t1: real, t2: real)
    requires t1 <= t2
    ensures CalculateScore(guessesUsed, t2) <= CalculateScore(guessesUsed, t1)
  {
    var x1 := 100.0 - t1 / 3.0;
    var x2 := 100.0 - t2 / 3.0;
    assert x2 <= x1;
    assert x2.Floor <= x1.Floor;
  }

  /** The values the scoring tests pin down. */
  lemma ScoreValues()
    ensures CalculateScore(1, 0.0) == 400
    ensures CalculateScore(1, 300.0) == 300
    ensures CalculateScore(2, 60.0) == 280
    ensures CalculateScore(3, 0.0) == 200
    ensures CalculateScore(1, 0.0) > CalculateScore(1, 300.0)
  {
    TimeBonusWholeSeconds(0);
    TimeBonusWholeSeconds(60);
  }
}
