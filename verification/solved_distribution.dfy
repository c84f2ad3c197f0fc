/** `lib/utils/solved-distribution.ts`: the `solved_distribution` object of
    a player's statistics maps a guess count, written as a decimal key, to
    the number of puzzles solved with that many guesses. A missing object
    (`null` or `undefined`) is `None`; the object is a list of entries with
    distinct keys whose order does not matter to any of the functions. */
module SolvedDistribution {
  import opened Wrappers
  import opened Seqs
  import opened Strings

  type Dist = seq<(string, int)>

  function Keys(d: Dist): (ks: seq<string>)
    ensures |ks| == |d|
    ensures forall i :: 0 <= i < |d| ==> ks[i] == d[i].0
  {
    if d == [] then [] else [d[0].0] + Keys(d[1..])
  }

  /** `d[key]`, `None` for `undefined`. */
  function Lookup(d: Dist, key: string): Option<int> {
    if d == [] then None
    else if d[0].0 == key then Some(d[0].1)
    else Lookup(d[1..], key)
  }

  /** A key has a value exactly when it is one of the keys. */
  lemma {:induction false} LookupSomeIff(d: Dist, key: string)
    ensures Lookup(d, key).Some? <==> key in Keys(d)
  {
    if d != [] {
      LookupSomeIff(d[1..], key);
      assert Keys(d) == [d[0].0] + Keys(d[1..]);
    }
  }

  /** The sum of the counts: `Object.values(dist).reduce(…, 0)`. */
  function SumCounts(d: Dist): int {
    if d == [] then 0 else d[0].1 + SumCounts(d[1..])
  }

  /** `countWins(dist)`. */
  function CountWins(dist: Option<Dist>): (n: int)
    ensures dist.None? || dist == Some([]) ==> n == 0
  {
    match dist
    case None => 0
    case Some(d) => SumCounts(d)
  }

  /** `d[key] = (d[key] ?? 0) + 1` on a copy: the entry for `key` is raised
      in place, or a new entry with count 1 is added. */
  function Bump(d: Dist, key: string): Dist {
    if d == [] then [(key, 1)]
    else if d[0].0 == key then [(key, d[0].1 + 1)] + d[1..]
    else [d[0]] + Bump(d[1..], key)
  }

  /** `incrementSolved(dist, guessesUsed)`. */
  function IncrementSolved(dist: Option<Dist>, guessesUsed: int): (r: Dist) {
    Bump(dist.GetOr([]), IntToString(guessesUsed))
  }

  /** Past an entry for another key, the lookup goes on in the rest. */
  lemma LookupStep(d: Dist, key: string)
    requires d != [] && d[0].0 != key
    ensures Lookup(d, key) == Lookup(d[1..], key)
  {
  }

  /** The bumped key's count goes up by one, from 0 when it was absent. */
  lemma {:induction false} BumpLookupSame(d: Dist, key: string)
    ensures Lookup(Bump(d, key), key) == Some(Lookup(d, key).GetOr(0) + 1)
  {
    var r := Bump(d, key);
    if d == [] {
      assert r == [(key, 1)];
    } else if d[0].0 == key {
      assert r[0] == (key, d[0].1 + 1);
      assert Lookup(d, key) == Some(d[0].1);
    } else {
      BumpLookupSame(d[1..], key);
      BumpPastOther(d, key);
    }
  }

  /** The inductive step of `BumpLookupSame`, past an entry for another key. */
  lemma BumpPastOther(d: Dist, key: string)
    requires d != [] && d[0].0 != key
    requires Lookup(Bump(d[1..], key), key) == Some(Lookup(d[1..], key).GetOr(0) + 1)
    ensures Lookup(Bump(d, key), key) == Some(Lookup(d, key).GetOr(0) + 1)
  {
    assert Bump(d, key) == [d[0]] + Bump(d[1..], key);
    LookupCons(d[0], Bump(d[1..], key), key);
    LookupStep(d, key);
  }

  lemma LookupCons(e: (string, int), rest: Dist, key: string)
    requires e.0 != key
    ensures Lookup([e] + rest, key) == Lookup(rest, key)
  {
    assert ([e] + rest)[1..] == rest;
  }

  /** Every other key keeps its count. */
  lemma {:induction false} BumpLookupOther(d: Dist, key: string, other: string)
    requires other != key
    ensures Lookup(Bump(d, key), other) == Lookup(d, other)
  {
    if d != [] && d[0].0 != key {
      BumpLookupOther(d[1..], key, other);
      assert Bump(d, key)[1..] == Bump(d[1..], key);
    } else if d != [] {
      assert Bump(d, key)[1..] == d[1..];
    }
  }

  /** A key that was absent is added as the last entry, with count 1. A
      JavaScript object lists integer-like keys such as "1" and "2" in
      ascending order instead; every function of the distribution adds over
      its entries, so no value here depends on that order. */
  lemma {:induction false} BumpAppendsNew(d: Dist, key: string)
    requires key !in Keys(d)
    ensures Bump(d, key) == d + [(key, 1)]
  {
    if d != [] {
      assert key != d[0].0 && key !in Keys(d[1..]);
      BumpAppendsNew(d[1..], key);
      assert d == [d[0]] + d[1..];
    }
  }

  /** Bumping adds exactly one win. */
  lemma {:induction false} BumpCount(d: Dist, key: string)
    ensures SumCounts(Bump(d, key)) == SumCounts(d) + 1
  {
    if d != [] && d[0].0 != key {
      BumpCount(d[1..], key);
    }
  }

  /** Bumping keeps the keys distinct. */
  lemma {:induction false} BumpDistinct(d: Dist, key: string)
    requires Distinct(Keys(d))
    ensures Distinct(Keys(Bump(d, key)))
  {
    if d != [] && d[0].0 != key {
      BumpDistinct(d[1..], key);
      var r := Bump(d, key);
      forall j | 0 < j < |r| ensures r[j].0 != d[0].0 {
        assert r[j].0 in Keys(Bump(d[1..], key));
        BumpLookupOther(d[1..], key, d[0].0);
        LookupSomeIff(d[1..], d[0].0);
        LookupSomeIff(Bump(d[1..], key), d[0].0);
      }
    }
  }

  /** `incrementSolved`: key `String(guessesUsed)` is raised by one or created
      at one, every other key is unchanged, the keys stay distinct and the
      wins go up by exactly one. */
  lemma IncrementSolvedSpec(dist: Option<Dist>, guessesUsed: int, other: string)
    requires dist.Some? ==> Distinct(Keys(dist.value))
    ensures var key := IntToString(guessesUsed);
            var r := IncrementSolved(dist, guessesUsed);
            && Lookup(r, key) == Some(Lookup(dist.GetOr([]), key).GetOr(0) + 1)
            && (other != key ==> Lookup(r, other) == Lookup(dist.GetOr([]), other))
            && Distinct(Keys(r))
            && CountWins(Some(r)) == CountWins(dist) + 1
  {
    var key := IntToString(guessesUsed);
    BumpLookupSame(dist.GetOr([]), key);
    if other != key {
      BumpLookupOther(dist.GetOr([]), key, other);
    }
    BumpDistinct(dist.GetOr([]), key);
    BumpCount(dist.GetOr([]), key);
  }

  /** `guesses * count` for an entry whose key `num` reads as an integer;
      the distribution uses `num := ParseInt`, and the lemmas below hold for
      any reading of the keys. */
  function EntryWeight(num: string -> Option<int>, e: (string, int)): int {
    match num(e.0)
    case None => 0
    case Some(g) => g * e.1
  }

  /** The `sum` of `getAverageGuessesFromSolvedDistribution`. */
  function WeightedSum(num: string -> Option<int>, d: Dist): int {
    if d == [] then 0 else EntryWeight(num, d[0]) + WeightedSum(num, d[1..])
  }

  /** `getAverageGuessesFromSolvedDistribution(dist)`: 0 without wins. */
  function AverageGuesses(dist: Option<Dist>): (avg: real)
    ensures CountWins(dist) == 0 ==> avg == 0.0
  {
    var wins := CountWins(dist);
    if wins == 0 then 0.0 else WeightedSum(ParseInt, dist.GetOr([])) as real / wins as real
  }

  /** Every key is the decimal form of a guess count in `lo..hi` and every
      count is non-negative. */
  ghost predicate KeysWithin(num: string -> Option<int>, d: Dist, lo: int, hi: int) {
    forall i :: 0 <= i < |d| ==>
      d[i].1 >= 0 && num(d[i].0).Some? && lo <= num(d[i].0).value <= hi
  }

  lemma MulWithin(g: int, c: int, lo: int, hi: int)
    requires c >= 0 && lo <= g <= hi
    ensures lo * c <= g * c <= hi * c
  {
    assert (g - lo) * c >= 0;
    assert (hi - g) * c >= 0;
  }

  lemma AddWithin(w0: int, c0: int, w1: int, c1: int, lo: int, hi: int)
    requires lo * c0 <= w0 <= hi * c0 && lo * c1 <= w1 <= hi * c1
    ensures lo * (c0 + c1) <= w0 + w1 <= hi * (c0 + c1)
  {
    assert lo * (c0 + c1) == lo * c0 + lo * c1;
    assert hi * (c0 + c1) == hi * c0 + hi * c1;
  }

  lemma {:induction false} WeightedSumWithin(num: string -> Option<int>, d: Dist, lo: int, hi: int)
    requires KeysWithin(num, d, lo, hi)
    ensures lo * SumCounts(d) <= WeightedSum(num, d) <= hi * SumCounts(d)
  {
    if d != [] {
      WeightedSumWithin(num, d[1..], lo, hi);
      MulWithin(num(d[0].0).value, d[0].1, lo, hi);
      AddWithin(EntryWeight(num, d[0]), d[0].1, WeightedSum(num, d[1..]), SumCounts(d[1..]), lo, hi);
    }
  }

  lemma DivWithin(w: int, c: int, lo: int, hi: int)
    requires c > 0 && lo * c <= w <= hi * c
    ensures lo as real <= w as real / c as real <= hi as real
  {
    assert (lo * c) as real == lo as real * c as real;
    assert (hi * c) as real == hi as real * c as real;
  }

  /** The average of a distribution of guess counts in `lo..hi` lies in
      `lo..hi` once there is a win. */
  lemma AverageWithin(d: Dist, lo: int, hi: int)
    requires KeysWithin(ParseInt, d, lo, hi) && CountWins(Some(d)) > 0
    ensures lo as real <= AverageGuesses(Some(d)) <= hi as real
  {
    WeightedSumWithin(ParseInt, d, lo, hi);
    DivWithin(WeightedSum(ParseInt, d), SumCounts(d), lo, hi);
  }

  /** The distribution a sequence of solved games builds, one
      `incrementSolved` per game. */
  function Record(games: seq<int>): Dist {
    if games == [] then [] else IncrementSolved(Some(Record(games[..|games| - 1])), games[|games| - 1])
  }

  /** One more win is one more `incrementSolved`. */
  lemma RecordSnoc(games: seq<int>, g: int)
    ensures Record(games + [g]) == IncrementSolved(Some(Record(games)), g)
  {
    assert (games + [g])[..|games|] == games;
  }

  lemma {:induction false} BumpWeight(d: Dist, g: int)
    ensures WeightedSum(ParseInt, Bump(d, IntToString(g))) == WeightedSum(ParseInt, d) + g
  {
    var key := IntToString(g);
    ParseIntOfIntToString(g);
    if d != [] && d[0].0 != key {
      BumpWeight(d[1..], g);
    } else if d != [] {
      assert EntryWeight(ParseInt, (key, d[0].1 + 1)) == EntryWeight(ParseInt, d[0]) + g;
    }
  }

  /** Recording games one by one counts every game as a win and makes the
      average the mean of their guess counts. */
  lemma RecordMean(games: seq<int>)
    ensures |games| > 0 ==> AverageGuesses(Some(Record(games))) == Sum(games) as real / |games| as real
  {
    RecordTotals(games);
  }

  lemma {:induction false} RecordTotals(games: seq<int>)
    ensures CountWins(Some(Record(games))) == |games|
    ensures WeightedSum(ParseInt, Record(games)) == Sum(games)
  {
    if games != [] {
      var init := games[..|games| - 1];
      var g := games[|games| - 1];
      assert games == init + [g];
      SumAppend(init, [g]);
      RecordTotals(init);
      BumpCount(Record(init), IntToString(g));
      BumpWeight(Record(init), g);
    }
  }

  /** The values of the tests: five wins in one guess, three in two, two in
      three make ten wins averaging 1.7. */
  lemma DistributionExample()
    ensures CountWins(Some([("1", 5), ("2", 3), ("3", 2)])) == 10
    ensures AverageGuesses(Some([("1", 5), ("2", 3), ("3", 2)])) == 1.7
    ensures IncrementSolved(Some([]), 2) == [("2", 1)]
    ensures IncrementSolved(Some([("2", 3)]), 2) == [("2", 4)]
    ensures IncrementSolved(None, 1) == [("1", 1)]
  {
    AverageExample([("1", 5), ("2", 3), ("3", 2)]);
    IncrementExamples();
  }

  /** The distribution `{1: 5, 2: 3, 3: 2}`, entry by entry. */
  lemma AverageExample(d: Dist)
    requires |d| == 3
    requires d[0] == ("1", 5) && d[1] == ("2", 3) && d[2] == ("3", 2)
    ensures CountWins(Some(d)) == 10
    ensures AverageGuesses(Some(d)) == 1.7
  {
    ExampleSums(d);
    assert CountWins(Some(d)) == 10;
    calc {
      AverageGuesses(Some(d));
      WeightedSum(ParseInt, d) as real / 10.0;
      17.0 / 10.0;
      1.7;
    }
  }

  lemma ExampleSums(d: Dist)
    requires |d| == 3
    requires d[0] == ("1", 5) && d[1] == ("2", 3) && d[2] == ("3", 2)
    ensures SumCounts(d) == 10 && WeightedSum(ParseInt, d) == 17
  {
    DigitKey(1);
    DigitKey(2);
    DigitKey(3);
    assert EntryWeight(ParseInt, d[0]) == 5;
    assert EntryWeight(ParseInt, d[1]) == 6;
    assert EntryWeight(ParseInt, d[2]) == 6;
    ThreeEntries(ParseInt, d);
  }

  /** Increments of an empty, a one-entry and a missing distribution. */
  lemma IncrementExamples()
    ensures IncrementSolved(Some([]), 2) == [("2", 1)]
    ensures IncrementSolved(Some([("2", 3)]), 2) == [("2", 4)]
    ensures IncrementSolved(None, 1) == [("1", 1)]
  {
    DigitKey(1);
    DigitKey(2);
  }

  /** A one-digit guess count and its key. */
  lemma DigitKey(n: nat)
    requires n < 10
    ensures IntToString(n) == [DigitChar(n)]
    ensures ParseInt([DigitChar(n)]) == Some(n)
  {
    ParseIntOfIntToString(n);
  }

  /** The two sums of a three-entry distribution, written out. */
  lemma ThreeEntries(num: string -> Option<int>, d: Dist)
    requires |d| == 3
    ensures SumCounts(d) == d[0].1 + d[1].1 + d[2].1
    ensures WeightedSum(num, d) == EntryWeight(num, d[0]) + EntryWeight(num, d[1]) + EntryWeight(num, d[2])
  {
    var t := d[1..];
    var u := t[1..];
    assert u[1..] == [];
    assert t[0] == d[1] && u[0] == d[2];
    assert SumCounts(u) == d[2].1 && WeightedSum(num, u) == EntryWeight(num, d[2]);
    assert SumCounts(t) == d[1].1 + SumCounts(u);
    assert WeightedSum(num, t) == EntryWeight(num, d[1]) + WeightedSum(num, u);
  }
}
