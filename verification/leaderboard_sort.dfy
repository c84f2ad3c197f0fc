/** `sortDailyLeaderboard` of `lib/utils/leaderboard-sort.ts`: a copy of the
    day's finished games sorted winners first, winners by fewer guesses and
    then less time, losers by smaller percentage error. The sort is stable. */
module LeaderboardSort {
  import opened Wrappers
  import opened StableSort

  /** The columns of a `guesses` row the board reads; `percentDiff` may be
      `null`. */
  datatype DailyEntry = DailyEntry(userId: string, isSolved: bool, guessesUsed: int,
                                   time: real, percentDiff: Option<real>)

  /** `a.percent_diff ?? 999`. */
  function DiffOr999(e: DailyEntry): real {
    e.percentDiff.GetOr(999.0)
  }

  /** The comparator's return value. */
  function DailyCompare(a: DailyEntry, b: DailyEntry): real {
    if a.isSolved != b.isSolved then (if a.isSolved then -1.0 else 1.0)
    else if a.isSolved then
      if a.guessesUsed != b.guessesUsed then (a.guessesUsed - b.guessesUsed) as real
      else a.time - b.time
    else DiffOr999(a) - DiffOr999(b)
  }

  /** `a` may come before `b`: the comparator does not return a positive
      number. */
  predicate DailyLe(a: DailyEntry, b: DailyEntry) {
    DailyCompare(a, b) <= 0.0
  }

  /** The comparator is consistent: total and transitive. */
  lemma DailyLeIsPreorder()
    ensures TotalPreorder(DailyLe)
  {
    forall a, b, c | DailyLe(a, b) && DailyLe(b, c) ensures DailyLe(a, c) {
    }
  }

  /** `sortDailyLeaderboard(entries)`: a sorted permutation of the input. */
  function SortDailyLeaderboard(entries: seq<DailyEntry>): (r: seq<DailyEntry>)
    ensures |r| == |entries| && multiset(r) == multiset(entries)
    ensures Sorted(r, DailyLe)
  {
    DailyLeIsPreorder();
    SortSorted(entries, DailyLe);
    Sort(entries, DailyLe)
  }

  /** Every winner precedes every loser. */
  lemma WinnersFirst(entries: seq<DailyEntry>, i: nat, j: nat)
    requires i < j < |entries|
    requires SortDailyLeaderboard(entries)[j].isSolved
    ensures SortDailyLeaderboard(entries)[i].isSolved
  {
    var r := SortDailyLeaderboard(entries);
    assert DailyLe(r[i], r[j]);
  }

  /** Winners run by guesses used, then by time. */
  lemma WinnersByGuessesThenTime(entries: seq<DailyEntry>, i: nat, j: nat)
    requires i < j < |entries|
    requires SortDailyLeaderboard(entries)[i].isSolved && SortDailyLeaderboard(entries)[j].isSolved
    ensures var r := SortDailyLeaderboard(entries);
            r[i].guessesUsed < r[j].guessesUsed
            || (r[i].guessesUsed == r[j].guessesUsed && r[i].time <= r[j].time)
  {
    var r := SortDailyLeaderboard(entries);
    assert DailyLe(r[i], r[j]);
  }

  /** Losers run by percentage error, a missing one counting as 999. */
  lemma LosersByPercentDiff(entries: seq<DailyEntry>, i: nat, j: nat)
    requires i < j < |entries|
    requires !SortDailyLeaderboard(entries)[i].isSolved && !SortDailyLeaderboard(entries)[j].isSolved
    ensures DiffOr999(SortDailyLeaderboard(entries)[i]) <= DiffOr999(SortDailyLeaderboard(entries)[j])
  {
    var r := SortDailyLeaderboard(entries);
    assert DailyLe(r[i], r[j]);
  }

  /** Entries the comparator calls equal keep their input order. */
  lemma TiesKeepInputOrder(entries: seq<DailyEntry>, x: DailyEntry)
    ensures EquivClass(SortDailyLeaderboard(entries), DailyLe, x) == EquivClass(entries, DailyLe, x)
  {
    DailyLeIsPreorder();
    SortStable(entries, DailyLe, x);
  }
}
