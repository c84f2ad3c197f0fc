/** What the daily cron route and the bulk generation script share: the
    weight table read from `HAND_FAMILY_WEIGHTS`, the difficulty label, the
    equity gate and the stored shape of a puzzle. Both files define
    `parseWeights` and `calculateDifficulty` identically; they are modelled
    once here. */
module DailyPuzzle {
  import opened Wrappers
  import opened Seqs
  import opened Strings
  import opened Deck
  import opened HandFamilies
  import opened OddsRounding
  import opened Random

  // ---------------------------------------------------------------------
  // Weight tables as JavaScript objects
  // ---------------------------------------------------------------------

  /** A key JavaScript orders before every other key of an object: the
      canonical decimal form of an integer below 2^32 - 1. */
  predicate IsArrayIndex(k: string) {
    && k != []
    && (forall i :: 0 <= i < |k| ==> IsDigit(k[i]))
    && (k == "0" || k[0] != '0')
    && DigitsValue(k) < 0xFFFF_FFFF
  }

  /** The keys of a table, in order. */
  function Keys(w: Weights): (ks: seq<string>)
    ensures |ks| == |w|
  {
    if w == [] then [] else [w[0].0] + Keys(w[1..])
  }

  /** `key` may precede the keys `rest` in an object: any array-index key
      among them forces `key` to be an array index of no larger value. */
  predicate HeadBefore(key: string, rest: seq<string>) {
    forall k :: k in rest && IsArrayIndex(k) ==>
      IsArrayIndex(key) && DigitsValue(key) <= DigitsValue(k)
  }

  /** The entries of an ordinary object: distinct keys, array-index keys
      first in increasing numeric value, the other keys after them. */
  predicate WellFormed(w: Weights) {
    w == [] || (w[0].0 !in Keys(w[1..]) && HeadBefore(w[0].0, Keys(w[1..])) && WellFormed(w[1..]))
  }

  /** `w[k]`: the value of the entry with key `k`. */
  function Lookup(w: Weights, k: string): (r: Option<real>)
    ensures r.Some? <==> k in Keys(w)
  {
    if w == [] then None
    else if w[0].0 == k then Some(w[0].1)
    else Lookup(w[1..], k)
  }

  /** `obj[k] = v` on an object: an existing key keeps its place and takes
      the new value; a new array-index key goes before the first larger
      index key or the first other key; any other new key goes last. */
  function Put(w: Weights, k: string, v: real): (r: Weights)
    ensures |w| <= |r|
  {
    if w == [] then [(k, v)]
    else if w[0].0 == k then [(k, v)] + w[1..]
    else if IsArrayIndex(k) && (!IsArrayIndex(w[0].0) || DigitsValue(k) < DigitsValue(w[0].0)) then
      [(k, v)] + w
    else [w[0]] + Put(w[1..], k, v)
  }

  lemma {:induction false} PutKeys(w: Weights, k: string, v: real, x: string)
    ensures x in Keys(Put(w, k, v)) <==> x in Keys(w) || x == k
  {
    if w != [] && w[0].0 != k
       && !(IsArrayIndex(k) && (!IsArrayIndex(w[0].0) || DigitsValue(k) < DigitsValue(w[0].0))) {
      PutKeys(w[1..], k, v, x);
    }
  }

  /** After `obj[k] = v`, `k` holds `v` and every other key its old value. */
  lemma {:induction false} PutLookup(w: Weights, k: string, v: real, x: string)
    ensures Lookup(Put(w, k, v), x) == if x == k then Some(v) else Lookup(w, x)
  {
    if w != [] && w[0].0 != k
       && !(IsArrayIndex(k) && (!IsArrayIndex(w[0].0) || DigitsValue(k) < DigitsValue(w[0].0))) {
      PutLookup(w[1..], k, v, x);
    }
  }

  /** Setting a key that is not an array index leaves the existing keys
      where they were. */
  lemma {:induction false} PutKeepsOrder(w: Weights, k: string, v: real)
    requires !IsArrayIndex(k)
    ensures Keys(w) <= Keys(Put(w, k, v))
  {
    if w != [] && w[0].0 != k {
      PutKeepsOrder(w[1..], k, v);
    }
  }

  /** An array-index key absent from the head's place cannot occur later. */
  lemma IndexKeyNotLater(w: Weights, k: string)
    requires WellFormed(w) && w != [] && w[0].0 != k
    requires IsArrayIndex(k) && (!IsArrayIndex(w[0].0) || DigitsValue(k) < DigitsValue(w[0].0))
    ensures k !in Keys(w)
    ensures HeadBefore(k, Keys(w))
  {
    assert Keys(w) == [w[0].0] + Keys(w[1..]);
  }

  /** `obj[k] = v` keeps an object well formed. */
  lemma {:induction false} PutWellFormed(w: Weights, k: string, v: real)
    requires WellFormed(w)
    ensures WellFormed(Put(w, k, v))
  {
    if w == [] {
    } else if w[0].0 == k {
      assert Put(w, k, v)[1..] == w[1..];
    } else if IsArrayIndex(k) && (!IsArrayIndex(w[0].0) || DigitsValue(k) < DigitsValue(w[0].0)) {
      IndexKeyNotLater(w, k);
      assert Put(w, k, v)[1..] == w;
    } else {
      var t := Put(w[1..], k, v);
      PutWellFormed(w[1..], k, v);
      assert Put(w, k, v)[1..] == t;
      forall x | x in Keys(t) ensures x in Keys(w[1..]) || x == k {
        PutKeys(w[1..], k, v, x);
      }
      PutKeys(w[1..], k, v, w[0].0);
    }
  }

  /** The value `o` gives `k` last, if any: a later duplicate key of a JSON
      text overrides an earlier one. */
  function LastValue(o: Weights, k: string): (r: Option<real>)
    ensures r.Some? <==> k in Keys(o)
  {
    if o == [] then None
    else
      var rest := LastValue(o[1..], k);
      if rest.Some? then rest
      else if o[0].0 == k then Some(o[0].1)
      else None
  }

  /** `{ ...base, ...overrides }`: the members of `overrides`, in order, set
      on a copy of `base`. */
  function Merge(base: Weights, overrides: Weights): (r: Weights)
    ensures |base| <= |r|
    decreases |overrides|
  {
    if overrides == [] then base
    else Merge(Put(base, overrides[0].0, overrides[0].1), overrides[1..])
  }

  lemma {:induction false} MergeWellFormed(base: Weights, overrides: Weights)
    requires WellFormed(base)
    ensures WellFormed(Merge(base, overrides))
    decreases |overrides|
  {
    if overrides != [] {
      PutWellFormed(base, overrides[0].0, overrides[0].1);
      MergeWellFormed(Put(base, overrides[0].0, overrides[0].1), overrides[1..]);
    }
  }

  /** A key of the merged object is a key of either side; its value is the
      last one the overrides give it, or else the base value. */
  lemma {:induction false} MergeLookup(base: Weights, overrides: Weights, k: string)
    ensures Lookup(Merge(base, overrides), k)
         == if k in Keys(overrides) then LastValue(overrides, k) else Lookup(base, k)
    ensures k in Keys(Merge(base, overrides)) <==> k in Keys(base) || k in Keys(overrides)
    decreases |overrides|
  {
    if overrides != [] {
      var (k0, v0) := overrides[0];
      MergeLookup(Put(base, k0, v0), overrides[1..], k);
      PutLookup(base, k0, v0, k);
      PutKeys(base, k0, v0, k);
    }
  }

  /** Without array-index keys among the overrides, the base keys keep their
      places at the front of the merged object. */
  lemma {:induction false} MergeKeepsBaseOrder(base: Weights, overrides: Weights)
    requires forall i :: 0 <= i < |overrides| ==> !IsArrayIndex(overrides[i].0)
    ensures Keys(base) <= Keys(Merge(base, overrides))
    decreases |overrides|
  {
    if overrides != [] {
      var next := Put(base, overrides[0].0, overrides[0].1);
      PutKeepsOrder(base, overrides[0].0, overrides[0].1);
      MergeKeepsBaseOrder(next, overrides[1..]);
    }
  }

  /** Distinct keys none of which is an array index form an object. */
  lemma {:induction false} PlainKeysWellFormed(w: Weights)
    requires forall i :: 0 <= i < |w| ==> !IsArrayIndex(w[i].0)
    requires forall i, j :: 0 <= i < j < |w| ==> w[i].0 != w[j].0
    ensures WellFormed(w)
    ensures forall k :: k in Keys(w) ==> !IsArrayIndex(k)
  {
    if w != [] {
      PlainKeysWellFormed(w[1..]);
      assert Keys(w) == [w[0].0] + Keys(w[1..]);
      assert w[0].0 !in Keys(w[1..]) by {
        if w[0].0 in Keys(w[1..]) {
          var j := KeyIndex(w[1..], w[0].0);
        }
      }
    }
  }

  /** Where a key sits in a table. */
  lemma {:induction false} KeyIndex(w: Weights, k: string) returns (i: nat)
    requires k in Keys(w)
    ensures i < |w| && w[i].0 == k
  {
    if w[0].0 == k {
      i := 0;
    } else {
      assert Keys(w) == [w[0].0] + Keys(w[1..]);
      var j := KeyIndex(w[1..], k);
      i := j + 1;
    }
  }

  lemma DefaultWeightsWellFormed()
    ensures WellFormed(DEFAULT_WEIGHTS)
  {
    forall i | 0 <= i < |DEFAULT_WEIGHTS| ensures !IsArrayIndex(DEFAULT_WEIGHTS[i].0) {
      assert !IsDigit(DEFAULT_WEIGHTS[i].0[0]);
    }
    forall i, j | 0 <= i < j < |DEFAULT_WEIGHTS|
      ensures DEFAULT_WEIGHTS[i].0 != DEFAULT_WEIGHTS[j].0
    {
      assert DEFAULT_WEIGHTS[i].0[0] != DEFAULT_WEIGHTS[j].0[0];
    }
    PlainKeysWellFormed(DEFAULT_WEIGHTS);
  }

  /** `parseWeights()`: `raw` is `HAND_FAMILY_WEIGHTS`, the empty string when
      unset; `parse` stands for `JSON.parse`, giving the members of the
      parsed object in text order, or `None` when it throws. */
  function ParseWeights(raw: string, parse: string -> Option<Weights>): (w: Weights)
    ensures |w| >= |DEFAULT_WEIGHTS|
  {
    if raw == [] then DEFAULT_WEIGHTS
    else match parse(raw)
      case None => DEFAULT_WEIGHTS
      case Some(parsed) => Merge(DEFAULT_WEIGHTS, parsed)
  }

  /** The table `parseWeights` yields is an object; each key keeps its
      default weight unless the parsed object sets it, and the parsed object
      can only add keys; an unset or unparsable variable gives the
      defaults. */
  lemma ParseWeightsValues(raw: string, parse: string -> Option<Weights>, k: string)
    ensures var w := ParseWeights(raw, parse);
            var parsed := if raw == [] then None else parse(raw);
            && WellFormed(w)
            && (parsed.None? ==> w == DEFAULT_WEIGHTS)
            && (parsed.Some? ==>
                  && (k in Keys(w) <==> k in Keys(DEFAULT_WEIGHTS) || k in Keys(parsed.value))
                  && Lookup(w, k) == if k in Keys(parsed.value) then LastValue(parsed.value, k)
                                     else Lookup(DEFAULT_WEIGHTS, k))
  {
    DefaultWeightsWellFormed();
    if raw != [] && parse(raw).Some? {
      MergeLookup(DEFAULT_WEIGHTS, parse(raw).value, k);
      MergeWellFormed(DEFAULT_WEIGHTS, parse(raw).value);
    }
  }

  // ---------------------------------------------------------------------
  // Difficulty and the equity gate
  // ---------------------------------------------------------------------

  datatype Difficulty = Easy | Medium | Hard

  function MaxOf(s: seq<int>): (m: int)
    requires |s| > 0
    ensures forall i :: 0 <= i < |s| ==> s[i] <= m
    ensures exists i :: 0 <= i < |s| && s[i] == m
  {
    if |s| == 1 then s[0]
    else
      var m := MaxOf(s[1..]);
      assert exists i :: 0 < i < |s| && s[i] == m by {
        var i :| 0 <= i < |s[1..]| && s[1..][i] == m;
        assert s[i + 1] == m;
      }
      if s[0] >= m then s[0] else m
  }

  function MinOf(s: seq<int>): (m: int)
    requires |s| > 0
    ensures forall i :: 0 <= i < |s| ==> m <= s[i]
    ensures exists i :: 0 <= i < |s| && s[i] == m
  {
    if |s| == 1 then s[0]
    else
      var m := MinOf(s[1..]);
      assert exists i :: 0 < i < |s| && s[i] == m by {
        var i :| 0 <= i < |s[1..]| && s[1..][i] == m;
        assert s[i + 1] == m;
      }
      if s[0] <= m then s[0] else m
  }

  /** `calculateDifficulty(odds)`. For an empty list `Math.max` and
      `Math.min` give -Infinity and +Infinity, the spread is -Infinity, and
      the result is "hard". */
  function CalculateDifficulty(odds: seq<int>): Difficulty {
    if odds == [] then Hard
    else
      var spread := MaxOf(odds) - MinOf(odds);
      if spread >= 15 then Easy
      else if spread >= 8 then Medium
      else Hard
  }

  /** Two of the values are at least `t` apart. */
  ghost predicate SpreadAtLeast(odds: seq<int>, t: int) {
    exists i, j :: 0 <= i < |odds| && 0 <= j < |odds| && odds[i] - odds[j] >= t
  }

  /** The label depends only on the largest gap between two values: "easy"
      from 15 points, "medium" from 8, "hard" below. */
  lemma DifficultyBySpread(odds: seq<int>)
    ensures CalculateDifficulty(odds)
         == if SpreadAtLeast(odds, 15) then Easy
            else if SpreadAtLeast(odds, 8) then Medium
            else Hard
  {
    if odds != [] {
      var hi, lo := MaxOf(odds), MinOf(odds);
      var i :| 0 <= i < |odds| && odds[i] == hi;
      var j :| 0 <= j < |odds| && odds[j] == lo;
      assert odds[i] - odds[j] == hi - lo;
    }
  }

  /** `odds.every((o) => o >= 5 && o <= 50)`; its negation is the
      `odds.some((o) => o < 5 || o > 50)` of the final checks. */
  predicate InGate(odds: seq<real>) {
    forall i :: 0 <= i < |odds| ==> 5.0 <= odds[i] <= 50.0
  }

  /** The equities of four hands: `calculatePreFlopOdds` returns one value
      per hand. */
  type Odds4 = s: seq<real> | |s| == 4 witness [25.0, 25.0, 25.0, 25.0]

  // ---------------------------------------------------------------------
  // The stored puzzle
  // ---------------------------------------------------------------------

  /** One element of the `hands` column. */
  datatype PuzzleHand = PuzzleHand(position: nat, cards: Hand, actualPercent: int)

  /** A row of the `puzzles` table. */
  datatype Puzzle = Puzzle(date: string, hands: seq<PuzzleHand>, difficulty: Difficulty)

  /** `hands.map((cards, idx) => ({ position: idx + 1, cards, actualPercent: rounded[idx] }))`. */
  function PuzzleHands(hands: seq<Hand>, rounded: seq<int>): (ph: seq<PuzzleHand>)
    requires |hands| == |rounded|
    ensures |ph| == |hands|
  {
    seq(|hands|, i requires 0 <= i < |hands| => PuzzleHand(i + 1, hands[i], rounded[i]))
  }

  function CardsColumn(ph: seq<PuzzleHand>): (hands: seq<Hand>)
    ensures |hands| == |ph|
  {
    seq(|ph|, i requires 0 <= i < |ph| => ph[i].cards)
  }

  function Percents(ph: seq<PuzzleHand>): (p: seq<int>)
    ensures |p| == |ph|
  {
    seq(|ph|, i requires 0 <= i < |ph| => ph[i].actualPercent)
  }

  /** The `hands` column gives back the dealt hands and the rounded
      percentages, and numbers the positions 1, 2, … in order. */
  lemma PuzzleHandsRoundTrip(hands: seq<Hand>, rounded: seq<int>)
    requires |hands| == |rounded|
    ensures CardsColumn(PuzzleHands(hands, rounded)) == hands
    ensures Percents(PuzzleHands(hands, rounded)) == rounded
    ensures forall i :: 0 <= i < |hands| ==> PuzzleHands(hands, rounded)[i].position == i + 1
  {
  }

  /** Lines 102–109 of both generators: round the equities, label the
      difficulty from the rounded values and build the row. */
  function BuildPuzzle(date: string, hands: seq<Hand>, odds: Odds4): (p: Puzzle)
    requires |hands| == 4
    ensures p.date == date && |p.hands| == 4
    ensures Sum(Percents(p.hands)) == 100
    ensures CardsColumn(p.hands) == hands
    ensures forall i :: 0 <= i < 4 ==> p.hands[i].position == i + 1
    ensures p.difficulty == CalculateDifficulty(Percents(p.hands))
  {
    var rounded := RoundToSum100(odds).value;
    PuzzleHandsRoundTrip(hands, rounded);
    Puzzle(date, PuzzleHands(hands, rounded), CalculateDifficulty(rounded))
  }

  /** The stored percentages are those `roundToSum100` gives the equities. */
  lemma BuildPuzzleRounds(date: string, hands: seq<Hand>, odds: Odds4)
    requires |hands| == 4
    ensures Success(Percents(BuildPuzzle(date, hands, odds).hands)) == RoundToSum100(odds)
  {
    PuzzleHandsRoundTrip(hands, RoundToSum100(odds).value);
  }

  // ---------------------------------------------------------------------
  // The generator as both callers use it
  // ---------------------------------------------------------------------

  /** `generateFourHandsWithFamilies(weights)` as a function of the index of
      the next unread draw. */
  function DealSource(weights: Weights, rand: nat -> Draw): (generate: nat -> Dealt)
    requires |weights| > 0
  {
    (n: nat) => GenerateFourHands(weights, 100, rand, n)
  }

  /** Every deal the source produces is a valid deal for its table. */
  ghost predicate SoundSource(weights: Weights, generate: nat -> Dealt) {
    forall n :: generate(n).hands.Some? ==> ValidDeal(weights, generate(n).hands.value)
  }

  /** Every deal has four hands. */
  ghost predicate DealsFour(generate: nat -> Dealt) {
    forall n :: generate(n).hands.Some? ==> |generate(n).hands.value| == 4
  }

  lemma DealSourceSound(weights: Weights, rand: nat -> Draw)
    requires |weights| > 0
    ensures SoundSource(weights, DealSource(weights, rand))
    ensures DealsFour(DealSource(weights, rand))
  {
  }
}
