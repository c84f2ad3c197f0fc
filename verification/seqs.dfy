/** Sequence utilities: the JavaScript array methods the model uses
    (`filter`, `flatMap`, `reduce` with `+`, `slice`, `findIndex`). */
module Seqs {
  import opened Wrappers

  /** No element occurs twice. */
  ghost predicate Distinct<T>(s: seq<T>) {
    forall i, j :: 0 <= i < j < |s| ==> s[i] != s[j]
  }

  /** `s.reduce((a, b) => a + b, 0)` over integers. */
  function Sum(s: seq<int>): int {
    if s == [] then 0 else s[0] + Sum(s[1..])
  }

  /** `s.reduce((a, b) => a + b, 0)` over reals. */
  function SumReal(s: seq<real>): real {
    if s == [] then 0.0 else s[0] + SumReal(s[1..])
  }

  lemma {:induction false} SumAppend(a: seq<int>, b: seq<int>)
    ensures Sum(a + b) == Sum(a) + Sum(b)
  {
    if a == [] {
      assert a + b == b;
    } else {
      assert (a + b)[1..] == a[1..] + b;
      SumAppend(a[1..], b);
    }
  }

  lemma {:induction false} SumRealAppend(a: seq<real>, b: seq<real>)
    ensures SumReal(a + b) == SumReal(a) + SumReal(b)
  {
    if a == [] {
      assert a + b == b;
    } else {
      assert (a + b)[1..] == a[1..] + b;
      SumRealAppend(a[1..], b);
    }
  }

  /** `s.filter(p)`: the elements satisfying `p`, in their original order. */
  function Filter<T(==,!new)>(s: seq<T>, p: T -> bool): (r: seq<T>)
    ensures |r| <= |s|
    ensures forall x :: x in r <==> x in s && p(x)
  {
    if s == [] then []
    else if p(s[0]) then [s[0]] + Filter(s[1..], p)
    else Filter(s[1..], p)
  }

  /** Filtering keeps a sequence whose elements all pass unchanged. */
  lemma {:induction false} FilterAll<T(!new)>(s: seq<T>, p: T -> bool)
    requires forall i :: 0 <= i < |s| ==> p(s[i])
    ensures Filter(s, p) == s
  {
    if s != [] {
      FilterAll(s[1..], p);
      assert s == [s[0]] + s[1..];
    }
  }

  /** Each maximal run of elements satisfying `isSpace` replaced by one
      `mark`. */
  function CollapseRuns<T>(s: seq<T>, isSpace: T -> bool, mark: T): (r: seq<T>)
    ensures |r| <= |s|
    ensures forall i :: 0 <= i < |r| ==> r[i] == mark || (r[i] in s && !isSpace(r[i]))
  {
    if s == [] then []
    else if !isSpace(s[0]) then [s[0]] + CollapseRuns(s[1..], isSpace, mark)
    else if |s| > 1 && isSpace(s[1]) then CollapseRuns(s[1..], isSpace, mark)
    else [mark] + CollapseRuns(s[1..], isSpace, mark)
  }

  /** Without any run there is nothing to collapse. */
  lemma {:induction false} CollapseRunsNone<T>(s: seq<T>, isSpace: T -> bool, mark: T)
    requires forall i :: 0 <= i < |s| ==> !isSpace(s[i])
    ensures CollapseRuns(s, isSpace, mark) == s
  {
    if s != [] {
      CollapseRunsNone(s[1..], isSpace, mark);
      assert s == [s[0]] + s[1..];
    }
  }

  /** A run followed by text that does not continue it leaves one mark. */
  lemma {:induction false} CollapseRunsLeading<T>(w: seq<T>, b: seq<T>, isSpace: T -> bool, mark: T)
    requires w != [] && forall i :: 0 <= i < |w| ==> isSpace(w[i])
    requires b == [] || !isSpace(b[0])
    ensures CollapseRuns(w + b, isSpace, mark) == [mark] + CollapseRuns(b, isSpace, mark)
  {
    assert (w + b)[1..] == w[1..] + b;
    if |w| > 1 {
      CollapseRunsLeading(w[1..], b, isSpace, mark);
    } else {
      assert w[1..] + b == b;
    }
  }

  /** Text that does not end inside a run collapses independently of what
      follows it. */
  lemma {:induction false} CollapseRunsAppend<T>(x: seq<T>, y: seq<T>, isSpace: T -> bool, mark: T)
    requires x == [] || !isSpace(x[|x| - 1])
    ensures CollapseRuns(x + y, isSpace, mark) == CollapseRuns(x, isSpace, mark) + CollapseRuns(y, isSpace, mark)
  {
    if x == [] {
      assert x + y == y;
    } else {
      var t := x[1..];
      assert (x + y)[0] == x[0];
      assert (x + y)[1..] == t + y;
      assert t == [] || t[|t| - 1] == x[|x| - 1];
      CollapseRunsAppend(t, y, isSpace, mark);
      if !isSpace(x[0]) {
        assert CollapseRuns(x + y, isSpace, mark) == [x[0]] + CollapseRuns(t + y, isSpace, mark);
        assert CollapseRuns(x, isSpace, mark) == [x[0]] + CollapseRuns(t, isSpace, mark);
      } else {
        assert |x| > 1 && (x + y)[1] == x[1];
        if isSpace(x[1]) {
          assert CollapseRuns(x + y, isSpace, mark) == CollapseRuns(t + y, isSpace, mark);
        } else {
          assert CollapseRuns(x + y, isSpace, mark) == [mark] + CollapseRuns(t + y, isSpace, mark);
        }
      }
    }
  }

  /** A run between text that does not touch it becomes exactly one mark,
      and the text on either side collapses on its own. */
  lemma {:induction false} CollapseRunsSplit<T>(a: seq<T>, w: seq<T>, b: seq<T>, isSpace: T -> bool, mark: T)
    requires w != [] && forall i :: 0 <= i < |w| ==> isSpace(w[i])
    requires a == [] || !isSpace(a[|a| - 1])
    requires b == [] || !isSpace(b[0])
    ensures CollapseRuns(a + w + b, isSpace, mark)
         == CollapseRuns(a, isSpace, mark) + [mark] + CollapseRuns(b, isSpace, mark)
  {
    assert a + w + b == a + (w + b);
    CollapseRunsAppend(a, w + b, isSpace, mark);
    CollapseRunsLeading(w, b, isSpace, mark);
  }

  /** Filtering removes a sequence none of whose elements pass. */
  lemma {:induction false} FilterNone<T(!new)>(s: seq<T>, p: T -> bool)
    requires forall i :: 0 <= i < |s| ==> !p(s[i])
    ensures Filter(s, p) == []
  {
    if s != [] {
      FilterNone(s[1..], p);
    }
  }

  /** Number of elements satisfying `p`. */
  function CountWhere<T>(s: seq<T>, p: T -> bool): (n: nat)
    ensures n <= |s|
  {
    if s == [] then 0
    else (if p(s[0]) then 1 else 0) + CountWhere(s[1..], p)
  }

  /** Filtering by `p` and by its negation splits `s` into two parts. */
  lemma {:induction false} FilterPartition<T(!new)>(s: seq<T>, p: T -> bool, q: T -> bool)
    requires forall x :: q(x) == !p(x)
    ensures multiset(Filter(s, p)) + multiset(Filter(s, q)) == multiset(s)
    ensures CountWhere(s, p) + CountWhere(s, q) == |s|
  {
    if s != [] {
      FilterPartition(s[1..], p, q);
      assert s == [s[0]] + s[1..];
    }
  }

  lemma {:induction false} CountWhereAppend<T>(a: seq<T>, b: seq<T>, p: T -> bool)
    ensures CountWhere(a + b, p) == CountWhere(a, p) + CountWhere(b, p)
  {
    if a == [] {
      assert a + b == b;
    } else {
      assert (a + b)[1..] == a[1..] + b;
      CountWhereAppend(a[1..], b, p);
    }
  }

  /** Counting does not depend on the order of the elements. */
  lemma {:induction false} CountWherePermutation<T>(s: seq<T>, t: seq<T>, p: T -> bool)
    requires multiset(s) == multiset(t)
    ensures CountWhere(s, p) == CountWhere(t, p)
    decreases |s|
  {
    if s == [] {
      assert |multiset(t)| == 0;
    } else {
      var k := Pick(s, t);
      var rest := t[..k] + t[k + 1..];
      CountWherePermutation(s[1..], rest, p);
      CountWhereAppend(t[..k], t[k..], p);
      CountWhereAppend(t[..k], t[k + 1..], p);
      assert t == t[..k] + t[k..];
      assert t[k..][1..] == t[k + 1..];
    }
  }

  /** `s.reduce((a, x) => a + f(x), 0)` over integers. */
  function SumBy<T>(s: seq<T>, f: T -> int): int {
    if s == [] then 0 else f(s[0]) + SumBy(s[1..], f)
  }

  /** `s.reduce((a, x) => a + f(x), 0)` over reals. */
  function SumByReal<T>(s: seq<T>, f: T -> real): real {
    if s == [] then 0.0 else f(s[0]) + SumByReal(s[1..], f)
  }

  lemma {:induction false} SumByAppend<T>(a: seq<T>, b: seq<T>, f: T -> int)
    ensures SumBy(a + b, f) == SumBy(a, f) + SumBy(b, f)
  {
    if a == [] {
      assert a + b == b;
    } else {
      assert (a + b)[1..] == a[1..] + b;
      SumByAppend(a[1..], b, f);
    }
  }

  lemma {:induction false} SumByRealAppend<T>(a: seq<T>, b: seq<T>, f: T -> real)
    ensures SumByReal(a + b, f) == SumByReal(a, f) + SumByReal(b, f)
  {
    if a == [] {
      assert a + b == b;
    } else {
      assert (a + b)[1..] == a[1..] + b;
      SumByRealAppend(a[1..], b, f);
    }
  }

  /** An index of `t` holding the head of `s`, where `t` is a permutation of
      `s`; removing it leaves a permutation of the tail. */
  lemma Pick<T>(s: seq<T>, t: seq<T>) returns (k: nat)
    requires s != [] && multiset(s) == multiset(t)
    ensures k < |t| && t[k] == s[0]
    ensures multiset(s[1..]) == multiset(t[..k] + t[k + 1..])
  {
    assert s == [s[0]] + s[1..];
    assert s[0] in multiset(t);
    k :| 0 <= k < |t| && t[k] == s[0];
    assert t == t[..k] + [t[k]] + t[k + 1..];
    assert multiset(t) == multiset(t[..k]) + multiset{t[k]} + multiset(t[k + 1..]);
    assert multiset(s) == multiset{s[0]} + multiset(s[1..]);
    calc {
      multiset(s[1..]);
      multiset(s) - multiset{s[0]};
      multiset(t) - multiset{t[k]};
      multiset(t[..k]) + multiset(t[k + 1..]);
      multiset(t[..k] + t[k + 1..]);
    }
  }

  /** Summing does not depend on the order of the elements. */
  lemma {:induction false} SumByPermutation<T>(s: seq<T>, t: seq<T>, f: T -> int)
    requires multiset(s) == multiset(t)
    ensures SumBy(s, f) == SumBy(t, f)
    decreases |s|
  {
    if s == [] {
      assert |multiset(t)| == 0;
    } else {
      var k := Pick(s, t);
      SumByPermutation(s[1..], t[..k] + t[k + 1..], f);
      SumByAppend(t[..k], t[k..], f);
      SumByAppend(t[..k], t[k + 1..], f);
      assert t == t[..k] + t[k..];
      assert t[k..][1..] == t[k + 1..];
    }
  }

  lemma {:induction false} SumByRealPermutation<T>(s: seq<T>, t: seq<T>, f: T -> real)
    requires multiset(s) == multiset(t)
    ensures SumByReal(s, f) == SumByReal(t, f)
    decreases |s|
  {
    if s == [] {
      assert |multiset(t)| == 0;
    } else {
      var k := Pick(s, t);
      SumByRealPermutation(s[1..], t[..k] + t[k + 1..], f);
      SumByRealAppend(t[..k], t[k..], f);
      SumByRealAppend(t[..k], t[k + 1..], f);
      assert t == t[..k] + t[k..];
      assert t[k..][1..] == t[k + 1..];
    }
  }

  /** `xs.flatMap(f)`: the concatenation of `f(x)` for every `x`, in order.
      Membership is stated by `FlatMapIntro` and `FlatMapElim`, to be invoked
      where needed. */
  function FlatMap<A, B>(xs: seq<A>, f: A -> seq<B>): (r: seq<B>)
    ensures xs == [] ==> r == []
  {
    if xs == [] then [] else f(xs[0]) + FlatMap(xs[1..], f)
  }

  lemma {:induction false} FlatMapIntro<A, B>(xs: seq<A>, f: A -> seq<B>, x: A, y: B)
    requires x in xs && y in f(x)
    ensures y in FlatMap(xs, f)
  {
    if xs[0] != x {
      FlatMapIntro(xs[1..], f, x, y);
    }
  }

  lemma {:induction false} FlatMapElim<A, B>(xs: seq<A>, f: A -> seq<B>, y: B) returns (x: A)
    requires y in FlatMap(xs, f)
    ensures x in xs && y in f(x)
  {
    if y in f(xs[0]) {
      x := xs[0];
    } else {
      x := FlatMapElim(xs[1..], f, y);
    }
  }

  /** `s.slice(0, n)` for an end index `n` already clamped to `0..|s|`. */
  function Take<T>(s: seq<T>, n: nat): (r: seq<T>)
    ensures |r| == if n <= |s| then n else |s|
    ensures forall i :: 0 <= i < |r| ==> r[i] == s[i]
  {
    if n <= |s| then s[..n] else s
  }

  /** `s.slice(0, end)` for any end: `NaN` (`None`) reads as 0, a negative
      end counts back from the end of `s`, a large one stops at `|s|`. */
  function SliceTo<T>(s: seq<T>, end: Option<int>): (r: seq<T>)
    ensures |r| <= |s| && r == s[..|r|]
    ensures end.None? ==> r == []
    ensures end.Some? && end.value >= 0 ==> |r| == if end.value <= |s| then end.value else |s|
    ensures end.Some? && end.value < 0 ==> |r| == if |s| + end.value >= 0 then |s| + end.value else 0
  {
    match end
    case None => []
    case Some(e) =>
      if e < 0 then (if |s| + e >= 0 then s[..|s| + e] else [])
      else Take(s, e)
  }

  /** `s.findIndex(p)`: the first index whose element satisfies `p`, if any. */
  function FindIndex<T>(s: seq<T>, p: T -> bool): (r: Option<nat>)
    ensures r.Some? ==>
              && r.value < |s| && p(s[r.value])
              && forall k :: 0 <= k < r.value ==> !p(s[k])
    ensures r.None? ==> forall k :: 0 <= k < |s| ==> !p(s[k])
  {
    if s == [] then None
    else if p(s[0]) then Some(0)
    else match FindIndex(s[1..], p)
      case None => None
      case Some(k) => Some(k + 1)
  }
}
