/** `Array.prototype.sort` with a consistent comparator.

    Since ES2019 the JavaScript sort is stable: elements the comparator calls
    equal keep their input order. For a comparator `cmp` the model uses the
    relation `le(a, b) := cmp(a, b) <= 0` and sorts by stable insertion. The
    lemmas below show the result is a permutation of the input, sorted by
    `le`, and stable; `StableSortIsUnique` shows that these properties
    determine the output, so any stable sort gives the same sequence. */
module StableSort {

  /** `le` is total and transitive: the comparator is consistent. */
  ghost predicate TotalPreorder<T(!new)>(le: (T, T) -> bool) {
    && (forall a, b :: le(a, b) || le(b, a))
    && (forall a, b, c :: le(a, b) && le(b, c) ==> le(a, c))
  }

  /** `a` and `b` compare equal (the comparator returns 0). */
  predicate Equiv<T>(le: (T, T) -> bool, a: T, b: T) {
    le(a, b) && le(b, a)
  }

  ghost predicate Sorted<T>(s: seq<T>, le: (T, T) -> bool) {
    forall i, j :: 0 <= i < j < |s| ==> le(s[i], s[j])
  }

  /** Inserts `x` before the first element it is `le` to, so that `x` precedes
      every element of `s` it compares equal to. */
  function Insert<T>(x: T, s: seq<T>, le: (T, T) -> bool): (r: seq<T>)
    ensures |r| == |s| + 1
    ensures multiset(r) == multiset(s) + multiset{x}
  {
    if s == [] then [x]
    else if le(x, s[0]) then [x] + s
    else
      assert s == [s[0]] + s[1..];
      [s[0]] + Insert(x, s[1..], le)
  }

  /** Stable insertion sort: the head is inserted into the sorted tail. */
  function Sort<T>(s: seq<T>, le: (T, T) -> bool): (r: seq<T>)
    ensures |r| == |s|
    ensures multiset(r) == multiset(s)
  {
    if s == [] then []
    else
      assert s == [s[0]] + s[1..];
      Insert(s[0], Sort(s[1..], le), le)
  }

  lemma {:induction false} InsertSorted<T(!new)>(x: T, s: seq<T>, le: (T, T) -> bool)
    requires TotalPreorder(le)
    requires Sorted(s, le)
    ensures Sorted(Insert(x, s, le), le)
  {
    if s == [] || le(x, s[0]) {
    } else {
      var t := Insert(x, s[1..], le);
      InsertSorted(x, s[1..], le);
      assert le(s[0], x);
      forall j | 0 <= j < |t| ensures le(s[0], t[j]) {
        assert t[j] in multiset(t);
        if t[j] != x {
          assert t[j] in s[1..];
        }
      }
    }
  }

  /** The result of `Sort` is ordered by `le`. */
  lemma {:induction false} SortSorted<T(!new)>(s: seq<T>, le: (T, T) -> bool)
    requires TotalPreorder(le)
    ensures Sorted(Sort(s, le), le)
  {
    if s != [] {
      SortSorted(s[1..], le);
      InsertSorted(s[0], Sort(s[1..], le), le);
    }
  }

  /** The elements of `s` that compare equal to `x`, in order. */
  function EquivClass<T>(s: seq<T>, le: (T, T) -> bool, x: T): seq<T> {
    if s == [] then []
    else (if Equiv(le, s[0], x) then [s[0]] else []) + EquivClass(s[1..], le, x)
  }

  lemma {:induction false} InsertEquivClass<T(!new)>(a: T, t: seq<T>, le: (T, T) -> bool, x: T)
    requires TotalPreorder(le)
    ensures EquivClass(Insert(a, t, le), le, x)
         == (if Equiv(le, a, x) then [a] else []) + EquivClass(t, le, x)
  {
    var ea := if Equiv(le, a, x) then [a] else [];
    if t == [] {
      assert EquivClass([a], le, x) == ea + EquivClass([], le, x);
    } else if le(a, t[0]) {
      assert ([a] + t)[1..] == t;
    } else {
      var et := if Equiv(le, t[0], x) then [t[0]] else [];
      var rest := Insert(a, t[1..], le);
      assert Insert(a, t, le) == [t[0]] + rest;
      assert ([t[0]] + rest)[1..] == rest;
      InsertEquivClass(a, t[1..], le, x);
      assert EquivClass(Insert(a, t, le), le, x) == et + EquivClass(rest, le, x);
      assert EquivClass(t, le, x) == et + EquivClass(t[1..], le, x);

      assert ea == [] || et == [];
      assert et + (ea + EquivClass(t[1..], le, x)) == ea + (et + EquivClass(t[1..], le, x));
    }
  }

  /** Stability: the elements comparing equal to any `x` appear in the output
      in exactly their input order. */
  lemma {:induction false} SortStable<T(!new)>(s: seq<T>, le: (T, T) -> bool, x: T)
    requires TotalPreorder(le)
    ensures EquivClass(Sort(s, le), le, x) == EquivClass(s, le, x)
  {
    if s != [] {
      SortStable(s[1..], le, x);
      InsertEquivClass(s[0], Sort(s[1..], le), le, x);
    }
  }

  /** Sorted by `le`, and pairs that compare equal are ordered by `tie`. */
  ghost predicate SortedWithTies<T>(s: seq<T>, le: (T, T) -> bool, tie: (T, T) -> bool) {
    forall i, j :: 0 <= i < j < |s| ==>
      le(s[i], s[j]) && (le(s[j], s[i]) ==> tie(s[i], s[j]))
  }

  /** A head that is `le` every later element, and `tie` every later element
      it compares equal to, keeps the order. */
  lemma ConsWithTies<T>(h: T, t: seq<T>, le: (T, T) -> bool, tie: (T, T) -> bool)
    requires SortedWithTies(t, le, tie)
    requires forall j :: 0 <= j < |t| ==> le(h, t[j]) && (le(t[j], h) ==> tie(h, t[j]))
    ensures SortedWithTies([h] + t, le, tie)
  {
    var r := [h] + t;
    forall i, j | 0 <= i < j < |r|
      ensures le(r[i], r[j]) && (le(r[j], r[i]) ==> tie(r[i], r[j]))
    {
      if i == 0 {
        assert r[j] == t[j - 1];
      } else {
        assert r[i] == t[i - 1] && r[j] == t[j - 1];
      }
    }
  }

  /** The inserted element and the elements of `s` are all there is. */
  lemma {:induction false} InsertMembers<T>(x: T, s: seq<T>, le: (T, T) -> bool)
    ensures forall j :: 0 <= j < |Insert(x, s, le)| ==>
              Insert(x, s, le)[j] == x || exists k :: 0 <= k < |s| && s[k] == Insert(x, s, le)[j]
  {
    var r := Insert(x, s, le);
    forall j | 0 <= j < |r|
      ensures r[j] == x || exists k :: 0 <= k < |s| && s[k] == r[j]
    {
      assert r[j] in multiset(r);
      if r[j] != x {
        assert r[j] in multiset(s);
        assert r[j] in s;
      }
    }
  }

  /** An element that precedes `x` and every element of `s`, the way a sorted
      head does, precedes every element of `t` made from them. */
  lemma HeadBeforeAll<T>(h: T, x: T, s: seq<T>, t: seq<T>, le: (T, T) -> bool, tie: (T, T) -> bool)
    requires le(h, x) && !le(x, h)
    requires forall k :: 0 <= k < |s| ==> le(h, s[k]) && (le(s[k], h) ==> tie(h, s[k]))
    requires forall j :: 0 <= j < |t| ==> t[j] == x || exists k :: 0 <= k < |s| && s[k] == t[j]
    ensures forall j :: 0 <= j < |t| ==> le(h, t[j]) && (le(t[j], h) ==> tie(h, t[j]))
  {
  }

  lemma {:induction false} InsertWithTies<T(!new)>(x: T, s: seq<T>, le: (T, T) -> bool, tie: (T, T) -> bool)
    requires TotalPreorder(le)
    requires SortedWithTies(s, le, tie)
    requires forall k :: 0 <= k < |s| ==> tie(x, s[k])
    ensures SortedWithTies(Insert(x, s, le), le, tie)
  {
    if s == [] {
      assert Insert(x, s, le) == [x] + s;
      ConsWithTies(x, s, le, tie);
    } else if le(x, s[0]) {
      forall j | 0 <= j < |s| ensures le(x, s[j]) {
        if j > 0 {
          assert le(s[0], s[j]);
        }
      }
      ConsWithTies(x, s, le, tie);
    } else {
      var tail := s[1..];
      forall i, j | 0 <= i < j < |tail|
        ensures le(tail[i], tail[j]) && (le(tail[j], tail[i]) ==> tie(tail[i], tail[j]))
      {
        assert tail[i] == s[i + 1] && tail[j] == s[j + 1];
      }
      forall k | 0 <= k < |tail| ensures le(s[0], tail[k]) && (le(tail[k], s[0]) ==> tie(s[0], tail[k])) {
        assert tail[k] == s[k + 1];
      }
      var t := Insert(x, tail, le);
      InsertWithTies(x, tail, le, tie);
      InsertMembers(x, tail, le);
      HeadBeforeAll(s[0], x, tail, t, le, tie);
      ConsWithTies(s[0], t, le, tie);
      assert Insert(x, s, le) == [s[0]] + t;
    }
  }

  /** When the input is already ordered by `tie`, the output is ordered by `le`
      and, among elements comparing equal, still by `tie`. */
  lemma {:induction false} SortWithTies<T(!new)>(s: seq<T>, le: (T, T) -> bool, tie: (T, T) -> bool)
    requires TotalPreorder(le)
    requires forall i, j :: 0 <= i < j < |s| ==> tie(s[i], s[j])
    ensures SortedWithTies(Sort(s, le), le, tie)
  {
    if s != [] {
      var t := Sort(s[1..], le);
      SortWithTies(s[1..], le, tie);
      forall k | 0 <= k < |t| ensures tie(s[0], t[k]) {
        assert t[k] in multiset(s[1..]);
        var m :| 0 <= m < |s[1..]| && s[1..][m] == t[k];
        assert s[m + 1] == t[k];
      }
      InsertWithTies(s[0], t, le, tie);
    }
  }

  /** Two sorted permutations with the same equivalence classes start with
      the same element. */
  lemma SameHead<T(!new)>(r1: seq<T>, r2: seq<T>, le: (T, T) -> bool)
    requires TotalPreorder(le)
    requires multiset(r1) == multiset(r2) && r1 != []
    requires Sorted(r1, le) && Sorted(r2, le)
    requires forall x :: EquivClass(r1, le, x) == EquivClass(r2, le, x)
    ensures r2 != [] && r1[0] == r2[0]
  {
    assert |r2| == |r1| by { assert |multiset(r1)| == |multiset(r2)|; }
    var h1, h2 := r1[0], r2[0];
    assert h1 in multiset(r2);
    assert h2 in multiset(r1);
    assert le(h2, h1) && le(h1, h2) by {
      var i :| 0 <= i < |r2| && r2[i] == h1;
      var j :| 0 <= j < |r1| && r1[j] == h2;
      if i > 0 { assert le(r2[0], r2[i]); }
      if j > 0 { assert le(r1[0], r1[j]); }
    }
    assert EquivClass(r1, le, h1) == [h1] + EquivClass(r1[1..], le, h1);
    assert EquivClass(r2, le, h1) == [h2] + EquivClass(r2[1..], le, h1);
    assert EquivClass(r1, le, h1) == EquivClass(r2, le, h1);
    assert h1 == EquivClass(r1, le, h1)[0] == EquivClass(r2, le, h1)[0] == h2;
  }

  /** Dropping a common head keeps the equivalence classes equal. */
  lemma SameTailClasses<T>(r1: seq<T>, r2: seq<T>, le: (T, T) -> bool)
    requires r1 != [] && r2 != [] && r1[0] == r2[0]
    requires forall x :: EquivClass(r1, le, x) == EquivClass(r2, le, x)
    ensures forall x :: EquivClass(r1[1..], le, x) == EquivClass(r2[1..], le, x)
  {
    forall x ensures EquivClass(r1[1..], le, x) == EquivClass(r2[1..], le, x) {
      var e := if Equiv(le, r1[0], x) then [r1[0]] else [];
      var t1, t2 := EquivClass(r1[1..], le, x), EquivClass(r2[1..], le, x);
      assert EquivClass(r1, le, x) == e + t1;
      assert EquivClass(r2, le, x) == e + t2;
      assert t1 == (e + t1)[|e|..] == (e + t2)[|e|..] == t2;
    }
  }

  /** Dropping a common head keeps the multisets equal. */
  lemma SameTailMultiset<T>(r1: seq<T>, r2: seq<T>)
    requires r1 != [] && r2 != [] && r1[0] == r2[0]
    requires multiset(r1) == multiset(r2)
    ensures multiset(r1[1..]) == multiset(r2[1..])
  {
    assert r1 == [r1[0]] + r1[1..] && r2 == [r2[0]] + r2[1..];
    assert multiset(r1) == multiset{r1[0]} + multiset(r1[1..]);
    assert multiset(r2) == multiset{r1[0]} + multiset(r2[1..]);
    forall y ensures multiset(r1[1..])[y] == multiset(r2[1..])[y] {
      assert multiset(r1)[y] == multiset(r2)[y];
    }
  }

  lemma {:induction false} SortedEquivClassesUnique<T(!new)>(r1: seq<T>, r2: seq<T>, le: (T, T) -> bool)
    requires TotalPreorder(le)
    requires multiset(r1) == multiset(r2)
    requires Sorted(r1, le) && Sorted(r2, le)
    requires forall x :: EquivClass(r1, le, x) == EquivClass(r2, le, x)
    ensures r1 == r2
  {
    if r1 == [] {
      assert |r2| == 0 by { assert |multiset(r1)| == |multiset(r2)|; }
    } else {
      SameHead(r1, r2, le);
      SameTailClasses(r1, r2, le);
      SameTailMultiset(r1, r2);
      SortedEquivClassesUnique(r1[1..], r2[1..], le);
      assert r1 == [r1[0]] + r1[1..] && r2 == [r2[0]] + r2[1..];
    }
  }

  /** Any permutation of `s` that is sorted by `le` and stable is `Sort(s, le)`:
      the model does not depend on which stable algorithm the runtime uses. */
  lemma StableSortIsUnique<T(!new)>(s: seq<T>, r: seq<T>, le: (T, T) -> bool)
    requires TotalPreorder(le)
    requires multiset(r) == multiset(s)
    requires Sorted(r, le)
    requires forall x :: EquivClass(r, le, x) == EquivClass(s, le, x)
    ensures r == Sort(s, le)
  {
    SortSorted(s, le);
    forall x ensures EquivClass(r, le, x) == EquivClass(Sort(s, le), le, x) {
      SortStable(s, le, x);
    }
    SortedEquivClassesUnique(r, Sort(s, le), le);
  }
}
