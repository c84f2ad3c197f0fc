/** `roundToSum100` of `lib/poker/odds-calculator.ts`: four equity
    percentages become four integers summing to 100. The two values with the
    smallest fractional part are rounded down, the other two up; if the sum
    still misses 100, the first largest rounded value absorbs the difference.
    Odds are modelled as exact reals. */
module OddsRounding {
  import opened Wrappers
  import opened Seqs
  import opened StableSort

  /** `Math.floor`. */
  function Floor(x: real): int {
    x.Floor
  }

  /** `x - Math.floor(x)`, in [0, 1). */
  function Frac(x: real): (f: real)
    ensures 0.0 <= f < 1.0
  {
    x - x.Floor as real
  }

  /** `Math.ceil`: the floor, plus one unless `x` is an integer. */
  function Ceil(x: real): (c: int)
    ensures x <= c as real < x + 1.0
    ensures c == Floor(x) <==> Frac(x) == 0.0
  {
    if Frac(x) == 0.0 then x.Floor else x.Floor + 1
  }

  /** One element of the `distances` array. */
  datatype Distance = Distance(index: nat, value: real, distanceToFloor: real)

  /** `odds.map((odd, i) => ({ index: i, value: odd, distanceToFloor: … }))`. */
  function Distances(odds: seq<real>): (ds: seq<Distance>)
    ensures |ds| == |odds|
    ensures forall i :: 0 <= i < |ds| ==> ds[i] == Distance(i, odds[i], Frac(odds[i]))
  {
    seq(|odds|, i requires 0 <= i < |odds| => Distance(i, odds[i], Frac(odds[i])))
  }

  /** The comparator `(a, b) => a.distanceToFloor - b.distanceToFloor` as the
      relation "returns at most 0". */
  predicate CloserToFloor(a: Distance, b: Distance) {
    a.distanceToFloor - b.distanceToFloor <= 0.0
  }

  predicate IndexBefore(a: Distance, b: Distance) {
    a.index < b.index
  }

  lemma CloserToFloorIsPreorder()
    ensures TotalPreorder(CloserToFloor)
  {
  }

  /** `distances` after the in-place (stable) sort. */
  function SortedDistances(odds: seq<real>): (ds: seq<Distance>)
    ensures |ds| == |odds|
    ensures multiset(ds) == multiset(Distances(odds))
  {
    Sort(Distances(odds), CloserToFloor)
  }

  /** `distances.slice(0, 2).some((d) => d.index === i)`. */
  predicate RoundsDown(odds: seq<real>, i: nat)
    requires |odds| == 4
  {
    var ds := SortedDistances(odds);
    ds[0].index == i || ds[1].index == i
  }

  /** The `rounded` array before the fallback. */
  function RoundedBeforeFallback(odds: seq<real>): (r: seq<int>)
    requires |odds| == 4
    ensures |r| == 4
    ensures forall i :: 0 <= i < 4 ==> r[i] == if RoundsDown(odds, i) then Floor(odds[i]) else Ceil(odds[i])
  {
    seq(4, i requires 0 <= i < 4 => if RoundsDown(odds, i) then Floor(odds[i]) else Ceil(odds[i]))
  }

  /** `rounded.indexOf(Math.max(...rounded))`: the first index of a largest
      element. */
  function MaxIndex(s: seq<int>): (k: nat)
    requires |s| > 0
    ensures k < |s|
    ensures forall j :: 0 <= j < |s| ==> s[j] <= s[k]
    ensures forall j :: 0 <= j < k ==> s[j] < s[k]
  {
    if |s| == 1 then 0
    else
      var k := MaxIndex(s[1..]);
      if s[0] >= s[k + 1] then 0 else k + 1
  }

  /** `roundToSum100(odds)`; a `Failure` is the thrown error. */
  function RoundToSum100(odds: seq<real>): (r: Result<seq<int>, string>)
    ensures r.Failure? <==> |odds| != 4
    ensures r.Success? ==> |r.value| == 4 && Sum(r.value) == 100
  {
    if |odds| != 4 then Failure("roundToSum100 requires exactly 4 values")
    else
      var rounded := RoundedBeforeFallback(odds);
      var total := Sum(rounded);
      if total != 100 then
        var maxIdx := MaxIndex(rounded);
        var adjusted := rounded[maxIdx := rounded[maxIdx] + (100 - total)];
        SumOfFour(rounded);
        SumOfFour(adjusted);
        Success(adjusted)
      else
        Success(rounded)
  }

  lemma SumOfFour(s: seq<int>)
    requires |s| == 4
    ensures Sum(s) == s[0] + s[1] + s[2] + s[3]
  {
    var t1 := s[1..];
    var t2 := t1[1..];
    var t3 := t2[1..];
    assert t3[1..] == [];
    assert Sum(t3) == t3[0] + Sum(t3[1..]);
    assert Sum(t2) == t2[0] + Sum(t3);
    assert Sum(t1) == t1[0] + Sum(t2);
  }

  /** Index `i` comes before index `j` in the sort: a smaller fractional
      part, or an equal one and a lower index. */
  predicate Precedes(odds: seq<real>, i: nat, j: nat)
    requires i < |odds| && j < |odds|
  {
    Frac(odds[i]) < Frac(odds[j]) || (Frac(odds[i]) == Frac(odds[j]) && i < j)
  }

  /** Every element of the sorted distances is an element of `Distances`. */
  lemma SortedElement(odds: seq<real>, p: nat)
    requires p < |odds|
    ensures var d := SortedDistances(odds)[p];
            d.index < |odds| && d == Distance(d.index, odds[d.index], Frac(odds[d.index]))
  {
    var ds := SortedDistances(odds);
    assert ds[p] in multiset(Distances(odds));
    var q :| 0 <= q < |odds| && Distances(odds)[q] == ds[p];
  }

  /** The sorted distances run in `Precedes` order. */
  lemma {:induction false} SortedPrecedes(odds: seq<real>, p: nat, q: nat)
    requires p < q < |odds|
    ensures SortedDistances(odds)[p].index < |odds| && SortedDistances(odds)[q].index < |odds|
    ensures SortedDistances(odds)[p].index != SortedDistances(odds)[q].index
    ensures Precedes(odds, SortedDistances(odds)[p].index, SortedDistances(odds)[q].index)
  {
    var ds := SortedDistances(odds);
    var input := Distances(odds);
    CloserToFloorIsPreorder();
    SortWithTies(input, CloserToFloor, IndexBefore);
    assert CloserToFloor(ds[p], ds[q]) && (CloserToFloor(ds[q], ds[p]) ==> IndexBefore(ds[p], ds[q]));
    SortedElement(odds, p);
    SortedElement(odds, q);
  }

  /** The index at position `p` of the sorted distances holds every index
      `j < |odds|` somewhere. */
  lemma SortedCovers(odds: seq<real>, j: nat) returns (p: nat)
    requires j < |odds|
    ensures p < |odds| && SortedDistances(odds)[p].index == j
  {
    var ds := SortedDistances(odds);
    assert Distances(odds)[j] in multiset(ds);
    p :| 0 <= p < |ds| && ds[p] == Distances(odds)[j];
  }

  /** The stable sort rounds down exactly two indices, `a` and `b`, and each
      of them precedes each index rounded up: smaller fractional part, ties
      broken by the lower index. */
  lemma RoundDownTwoSmallest(odds: seq<real>) returns (a: nat, b: nat)
    requires |odds| == 4
    ensures a < 4 && b < 4 && a != b
    ensures forall i :: 0 <= i < 4 ==> (RoundsDown(odds, i) <==> i == a || i == b)
    ensures forall j :: 0 <= j < 4 && !RoundsDown(odds, j) ==> Precedes(odds, a, j) && Precedes(odds, b, j)
  {
    var ds := SortedDistances(odds);
    SortedElement(odds, 0);
    SortedElement(odds, 1);
    SortedPrecedes(odds, 0, 1);
    a, b := ds[0].index, ds[1].index;
    forall j | 0 <= j < 4 && !RoundsDown(odds, j)
      ensures Precedes(odds, a, j) && Precedes(odds, b, j)
    {
      var p := SortedCovers(odds, j);
      assert p >= 2;
      SortedPrecedes(odds, 0, p);
      SortedPrecedes(odds, 1, p);
    }
  }

  /** Without the fallback every output is the floor or the ceiling of its
      input, so it is less than 1 away. */
  lemma NoFallbackWithinOne(odds: seq<real>)
    requires |odds| == 4
    requires Sum(RoundedBeforeFallback(odds)) == 100
    ensures RoundToSum100(odds) == Success(RoundedBeforeFallback(odds))
    ensures forall i :: 0 <= i < 4 ==>
              var r := RoundToSum100(odds).value[i];
              (r == Floor(odds[i]) || r == Ceil(odds[i])) && odds[i] - 1.0 < r as real < odds[i] + 1.0
  {
  }

  /** The fallback changes at most one entry, the first largest rounded
      value; when the rounded values already sum to 100 nothing changes. */
  lemma FallbackTouchesFirstMax(odds: seq<real>)
    requires |odds| == 4
    ensures var rounded := RoundedBeforeFallback(odds);
            var r := RoundToSum100(odds).value;
            && (Sum(rounded) == 100 ==> r == rounded)
            && forall i :: 0 <= i < 4 && r[i] != rounded[i] ==>
                 && r[i] == rounded[i] + 100 - Sum(rounded)
                 && (forall j :: 0 <= j < 4 ==> rounded[j] <= rounded[i])
                 && (forall j :: 0 <= j < i ==> rounded[j] < rounded[i])
  {
  }

  /** Four integers that already sum to 100 come back unchanged. */
  lemma IntegersSumming100Unchanged(odds: seq<real>)
    requires |odds| == 4
    requires forall i :: 0 <= i < 4 ==> Frac(odds[i]) == 0.0
    requires odds[0] + odds[1] + odds[2] + odds[3] == 100.0
    ensures RoundToSum100(odds) == Success(seq(4, i requires 0 <= i < 4 => Floor(odds[i])))
  {
    var rounded := RoundedBeforeFallback(odds);
    assert forall i :: 0 <= i < 4 ==> rounded[i] as real == odds[i];
    SumOfFour(rounded);
    assert rounded == seq(4, i requires 0 <= i < 4 => Floor(odds[i]));
  }

  /** `roundToSum100([25, 25, 25, 25])` is `[25, 25, 25, 25]`. */
  lemma EvenSplitUnchanged()
    ensures RoundToSum100([25.0, 25.0, 25.0, 25.0]) == Success([25, 25, 25, 25])
  {
    var odds := [25.0, 25.0, 25.0, 25.0];
    IntegersSumming100Unchanged(odds);
    assert seq(4, i requires 0 <= i < 4 => Floor(odds[i])) == [25, 25, 25, 25];
  }
}
