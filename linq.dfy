/** The LINQ operators the extractor pipelines are built from: `Where`,
    `Select` and `Distinct` over finite sequences, and the flattening of a
    sequence of lazily produced groups that may throw. */
module Linq {
  import opened Wrappers

  /** `xs.Where(p)`: the elements satisfying `p`, in their original order. */
  function Where<T>(xs: seq<T>, p: T -> bool): (r: seq<T>)
    ensures |r| <= |xs|
    ensures forall i :: 0 <= i < |r| ==> r[i] in xs && p(r[i])
    decreases |xs|
  {
    if xs == [] then []
    else (if p(xs[0]) then [xs[0]] else []) + Where(xs[1..], p)
  }

  /** Nothing satisfying `p` is filtered out. */
  lemma {:induction false} WhereComplete<T>(xs: seq<T>, p: T -> bool, i: nat)
    requires i < |xs| && p(xs[i])
    ensures xs[i] in Where(xs, p)
    decreases |xs|
  {
    if 0 < i {
      assert xs[1..][i - 1] == xs[i];
      WhereComplete(xs[1..], p, i - 1);
    }
  }

  /** `xs.Select(f)`: `f` applied to every element, in order. */
  function Select<T, U>(xs: seq<T>, f: T -> U): (r: seq<U>)
    ensures |r| == |xs|
    ensures forall i :: 0 <= i < |xs| ==> r[i] == f(xs[i])
    decreases |xs|
  {
    if xs == [] then [] else [f(xs[0])] + Select(xs[1..], f)
  }

  /** No element occurs twice. */
  predicate NoDuplicates<T(==)>(xs: seq<T>) {
    forall i, j :: 0 <= i < j < |xs| ==> xs[i] != xs[j]
  }

  /** The position of the first occurrence of `x` in `xs`. */
  function FirstIndex<T(==)>(xs: seq<T>, x: T): (k: nat)
    requires x in xs
    ensures k < |xs| && xs[k] == x
    ensures forall j :: 0 <= j < k ==> xs[j] != x
  {
    if xs[0] == x then 0 else 1 + FirstIndex(xs[1..], x)
  }

  /** `xs.Distinct()`: the elements of `xs` without repetitions, each kept
      at its first occurrence. */
  function Distinct<T(==)>(xs: seq<T>): (r: seq<T>)
    ensures forall i :: 0 <= i < |r| ==> r[i] in xs
    ensures NoDuplicates(r)
    decreases |xs|
  {
    if xs == [] then []
    else
      var prefix := Distinct(xs[..|xs| - 1]);
      if xs[|xs| - 1] in prefix then prefix else prefix + [xs[|xs| - 1]]
  }

  /** Every element of the input is kept. */
  lemma {:induction false} DistinctComplete<T>(xs: seq<T>, i: nat)
    requires i < |xs|
    ensures xs[i] in Distinct(xs)
    decreases |xs|
  {
    var n := |xs| - 1;
    if i < n {
      assert xs[..n][i] == xs[i];
      DistinctComplete(xs[..n], i);
    }
  }

  /** A first occurrence in a prefix is a first occurrence in the whole. */
  lemma FirstIndexOfPrefix<T>(xs: seq<T>, n: nat, x: T)
    requires n <= |xs| && x in xs[..n]
    ensures FirstIndex(xs, x) == FirstIndex(xs[..n], x)
  {
    var k := FirstIndex(xs[..n], x);
    assert xs[k] == x;
    var j := FirstIndex(xs, x);
    assert xs[..n][j] == x by { assert j <= k; }
  }

  /** Distinct keeps first-occurrence order: listed earlier means first seen
      earlier in the input. */
  lemma {:induction false} DistinctKeepsFirstOccurrenceOrder<T>(xs: seq<T>)
    ensures FirstSeenInOrder(xs, Distinct(xs))
    decreases |xs|
  {
    if xs != [] {
      var n := |xs| - 1;
      var front := xs[..n];
      var prefix := Distinct(front);
      DistinctKeepsFirstOccurrenceOrder(front);
      forall i | 0 <= i < |prefix|
        ensures FirstIndex(xs, prefix[i]) == FirstIndex(front, prefix[i]) < n
      {
        FirstIndexOfPrefix(xs, n, prefix[i]);
      }
      if xs[n] in prefix {
        assert Distinct(xs) == prefix;
      } else {
        forall k | 0 <= k < n ensures front[k] != xs[n] {
          DistinctComplete(front, k);
        }
        assert FirstIndex(xs, xs[n]) == n;
        var r := prefix + [xs[n]];
        assert Distinct(xs) == r;
        forall i, j | 0 <= i < j < |r| ensures FirstIndex(xs, r[i]) < FirstIndex(xs, r[j]) {
          assert r[i] == prefix[i];
          if j < |prefix| {
            assert r[j] == prefix[j];
          }
        }
      }
    }
  }

  /** The elements of `r`, all taken from `xs`, appear in the order of
      their first occurrence in `xs`. */
  predicate FirstSeenInOrder<T(==)>(xs: seq<T>, r: seq<T>)
    requires forall i :: 0 <= i < |r| ==> r[i] in xs
  {
    forall i, j :: 0 <= i < j < |r| ==> FirstIndex(xs, r[i]) < FirstIndex(xs, r[j])
  }

  /** Two filters that split a third one, element by element, into two
      disjoint parts, select together exactly as many elements. */
  lemma {:induction false} WherePartition<T>(xs: seq<T>, p: T -> bool, a: T -> bool, b: T -> bool)
    requires forall i :: 0 <= i < |xs| ==> (p(xs[i]) <==> a(xs[i]) || b(xs[i])) && !(a(xs[i]) && b(xs[i]))
    ensures |Where(xs, a)| + |Where(xs, b)| == |Where(xs, p)|
    decreases |xs|
  {
    if xs != [] {
      assert forall i :: 0 <= i < |xs[1..]| ==> xs[1..][i] == xs[i + 1];
      WherePartition(xs[1..], p, a, b);
    }
  }

  /** A filter every element passes keeps the whole sequence. */
  lemma {:induction false} WhereAll<T>(xs: seq<T>, p: T -> bool)
    requires forall i :: 0 <= i < |xs| ==> p(xs[i])
    ensures Where(xs, p) == xs
    decreases |xs|
  {
    if xs != [] {
      assert forall i :: 0 <= i < |xs[1..]| ==> xs[1..][i] == xs[i + 1];
      WhereAll(xs[1..], p);
    }
  }

  /** Filtering distributes over concatenation. */
  lemma {:induction false} WhereAppend<T>(xs: seq<T>, ys: seq<T>, p: T -> bool)
    ensures Where(xs + ys, p) == Where(xs, p) + Where(ys, p)
    decreases |xs|
  {
    if xs == [] {
      assert xs + ys == ys;
    } else {
      assert (xs + ys)[1..] == xs[1..] + ys;
      WhereAppend(xs[1..], ys, p);
    }
  }

  /** Mapping distributes over concatenation. */
  lemma {:induction false} SelectAppend<T, U>(xs: seq<T>, ys: seq<T>, f: T -> U)
    ensures Select(xs + ys, f) == Select(xs, f) + Select(ys, f)
    decreases |xs|
  {
    if xs == [] {
      assert xs + ys == ys;
    } else {
      assert (xs + ys)[1..] == xs[1..] + ys;
      SelectAppend(xs[1..], ys, f);
    }
  }

  /** Filtering and mapping two lists that agree element by element, in
      which elements pass and in what they map to, gives the same result. */
  lemma {:induction false} WhereSelectPointwise<T, U>(xs: seq<T>, ys: seq<T>, p: T -> bool, q: T -> bool, f: T -> U)
    requires |xs| == |ys|
    requires forall i :: 0 <= i < |xs| ==> p(xs[i]) == q(ys[i]) && f(xs[i]) == f(ys[i])
    ensures Select(Where(xs, p), f) == Select(Where(ys, q), f)
    decreases |xs|
  {
    if xs != [] {
      assert forall i :: 0 <= i < |xs[1..]| ==> xs[1..][i] == xs[i + 1] && ys[1..][i] == ys[i + 1];
      WhereSelectPointwise(xs[1..], ys[1..], p, q, f);
      var hx := if p(xs[0]) then [xs[0]] else [];
      var hy := if q(ys[0]) then [ys[0]] else [];
      SelectAppend(hx, Where(xs[1..], p), f);
      SelectAppend(hy, Where(ys[1..], q), f);
    }
  }

  /** An element of a filtered and mapped sequence is the image of an
      element that passes the filter. */
  lemma SelectWhereSound<T, U>(xs: seq<T>, p: T -> bool, f: T -> U, j: nat)
    requires j < |Select(Where(xs, p), f)|
    ensures exists i :: 0 <= i < |xs| && p(xs[i]) && Select(Where(xs, p), f)[j] == f(xs[i])
  {
    var w := Where(xs, p);
    assert w[j] in xs && p(w[j]);
    var i :| 0 <= i < |xs| && xs[i] == w[j];
  }

  /** The image of every element that passes the filter is there. */
  lemma SelectWhereComplete<T, U>(xs: seq<T>, p: T -> bool, f: T -> U, i: nat)
    requires i < |xs| && p(xs[i])
    ensures f(xs[i]) in Select(Where(xs, p), f)
  {
    WhereComplete(xs, p, i);
    var w := Where(xs, p);
    var j :| 0 <= j < |w| && w[j] == xs[i];
    assert Select(w, f)[j] == f(xs[i]);
  }

  /** The groups one after another, as a nested `foreach` with
      `yield return` enumerates them: the first group that throws ends the
      enumeration with its exception. */
  function ConcatResults<T, E>(groups: seq<Result<seq<T>, E>>): (r: Result<seq<T>, E>)
    decreases |groups|
  {
    if groups == [] then Success([])
    else
      var first :- groups[0];
      var rest :- ConcatResults(groups[1..]);
      Success(first + rest)
  }

  /** The enumeration throws exactly when one of the groups throws. */
  lemma {:induction false} ConcatResultsFailure<T, E>(groups: seq<Result<seq<T>, E>>)
    ensures ConcatResults(groups).Failure? <==> exists n :: 0 <= n < |groups| && groups[n].Failure?
    decreases |groups|
  {
    if groups != [] {
      var rest := groups[1..];
      ConcatResultsFailure(rest);
      if exists n :: 0 <= n < |rest| && rest[n].Failure? {
        var n :| 0 <= n < |rest| && rest[n].Failure?;
        assert groups[n + 1].Failure?;
      }
      if exists n :: 0 <= n < |groups| && groups[n].Failure? {
        var n :| 0 <= n < |groups| && groups[n].Failure?;
        if n > 0 {
          assert rest[n - 1] == groups[n];
        }
      }
    }
  }

  /** Enumerating two runs of groups one after the other gives their
      elements one after the other, and throws when either throws. */
  lemma {:induction false} ConcatResultsAppend<T, E>(a: seq<Result<seq<T>, E>>, b: seq<Result<seq<T>, E>>)
    ensures ConcatResults(a + b).Success? <==> ConcatResults(a).Success? && ConcatResults(b).Success?
    ensures ConcatResults(a + b).Success? ==>
              ConcatResults(a + b).value == ConcatResults(a).value + ConcatResults(b).value
    decreases |a|
  {
    if a == [] {
      assert a + b == b;
    } else {
      assert (a + b)[0] == a[0];
      assert (a + b)[1..] == a[1..] + b;
      ConcatResultsAppend(a[1..], b);
    }
  }

  /** Every element enumerated comes from one of the groups. */
  lemma {:induction false} ConcatResultsSound<T, E>(groups: seq<Result<seq<T>, E>>, i: nat)
    requires ConcatResults(groups).Success? && i < |ConcatResults(groups).value|
    ensures exists n, j :: 0 <= n < |groups| && groups[n].Success? && 0 <= j < |groups[n].value|
                        && ConcatResults(groups).value[i] == groups[n].value[j]
    decreases |groups|
  {
    var first := groups[0].value;
    var rest := ConcatResults(groups[1..]).value;
    assert ConcatResults(groups).value == first + rest;
    if i < |first| {
      assert ConcatResults(groups).value[i] == first[i];
    } else {
      ConcatResultsSound(groups[1..], i - |first|);
      var n, j :| 0 <= n < |groups[1..]| && groups[1..][n].Success? && 0 <= j < |groups[1..][n].value|
                  && rest[i - |first|] == groups[1..][n].value[j];
      assert groups[1..][n] == groups[n + 1];
    }
  }

  /** Every element of every group is enumerated. */
  lemma {:induction false} ConcatResultsComplete<T, E>(groups: seq<Result<seq<T>, E>>, n: nat, j: nat)
    requires ConcatResults(groups).Success? && n < |groups|
    ensures groups[n].Success?
    ensures j < |groups[n].value| ==> groups[n].value[j] in ConcatResults(groups).value
    decreases |groups|
  {
    var first := groups[0].value;
    var rest := ConcatResults(groups[1..]).value;
    assert ConcatResults(groups).value == first + rest;
    if n == 0 {
      if j < |first| {
        assert (first + rest)[j] == first[j];
      }
    } else {
      assert groups[1..][n - 1] == groups[n];
      ConcatResultsComplete(groups[1..], n - 1, j);
    }
  }
}
