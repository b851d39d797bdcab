/** Order-preserving collections: distinctness, first occurrences, the
    insertion-ordered de-duplication a JavaScript `Set` performs, and counting. */
module Seqs {
  import opened Wrappers

  predicate Distinct<T(==)>(xs: seq<T>) {
    forall i, j :: 0 <= i < j < |xs| ==> xs[i] != xs[j]
  }

  /** The index of the first occurrence of `x` in `xs`. */
  function FirstIndex<T(==)>(xs: seq<T>, x: T): (i: nat)
    requires x in xs
    ensures i < |xs| && xs[i] == x && x !in xs[..i]
  {
    if xs[0] == x then 0 else 1 + FirstIndex(xs[1..], x)
  }

  /** Extending a sequence does not move the first occurrence of an element
      that is already there. */
  lemma {:induction false} FirstIndexPrefix<T>(xs: seq<T>, m: nat, x: T)
    requires m <= |xs| && x in xs[..m]
    ensures FirstIndex(xs, x) == FirstIndex(xs[..m], x)
  {
    if xs[0] != x {
      assert xs[1..][..m - 1] == xs[..m][1..];
      assert x in xs[..m][1..] by { assert xs[..m] == [xs[0]] + xs[..m][1..]; }
      FirstIndexPrefix(xs[1..], m - 1, x);
    }
  }

  /** The distinct elements of `xs` in the order of their first occurrence:
      what inserting `xs` into a JavaScript `Set` and reading it back gives. */
  function Dedup<T(==)>(xs: seq<T>): seq<T>
  {
    if xs == [] then []
    else
      var d := Dedup(xs[..|xs| - 1]);
      if xs[|xs| - 1] in d then d else d + [xs[|xs| - 1]]
  }

  /** De-duplication keeps exactly the elements of the input, once each, in
      the order in which they first occur. */
  lemma {:induction false} DedupSpec<T>(xs: seq<T>)
    ensures Distinct(Dedup(xs))
    ensures forall x :: x in Dedup(xs) <==> x in xs
    ensures forall i, j :: 0 <= i < j < |Dedup(xs)| ==>
              FirstIndex(xs, Dedup(xs)[i]) < FirstIndex(xs, Dedup(xs)[j])
  {
    if xs != [] {
      var n := |xs| - 1;
      var init := xs[..n];
      DedupSpec(init);
      var d := Dedup(init);
      assert xs == init + [xs[n]];
      forall x | x in init ensures FirstIndex(xs, x) == FirstIndex(init, x) {
        FirstIndexPrefix(xs, n, x);
      }
      if xs[n] !in d {
        assert xs[n] !in init;
        assert FirstIndex(xs, xs[n]) == n;
      }
    }
  }

  /** How many elements of `xs` satisfy `p`. */
  function CountWhere<T>(xs: seq<T>, p: T -> bool): (n: nat)
    ensures n <= |xs|
  {
    if xs == [] then 0
    else CountWhere(xs[..|xs| - 1], p) + (if p(xs[|xs| - 1]) then 1 else 0)
  }

  /** A sequence is empty exactly when nothing is in it. */
  lemma EmptyIffNoMember<T>(xs: seq<T>)
    ensures xs == [] <==> forall x :: x !in xs
  {
    if xs != [] {
      assert xs[0] in xs;
    }
  }

  /** The elements of `xs` that satisfy `p`, in order. */
  function Filter<T>(xs: seq<T>, p: T -> bool): (r: seq<T>)
    ensures |r| <= |xs|
    ensures forall k :: 0 <= k < |r| ==> p(r[k]) && r[k] in xs
  {
    if xs == [] then []
    else Filter(xs[..|xs| - 1], p) + (if p(xs[|xs| - 1]) then [xs[|xs| - 1]] else [])
  }

  /** The filter keeps exactly the elements that satisfy `p`. */
  lemma {:induction false} FilterSpec<T>(xs: seq<T>, p: T -> bool)
    ensures forall x :: x in Filter(xs, p) <==> x in xs && p(x)
  {
    if xs != [] {
      var init := xs[..|xs| - 1];
      FilterSpec(init, p);
      assert xs == init + [xs[|xs| - 1]];
    }
  }

  lemma {:induction false} FilterAppend<T>(xs: seq<T>, ys: seq<T>, p: T -> bool)
    ensures Filter(xs + ys, p) == Filter(xs, p) + Filter(ys, p)
    decreases |ys|
  {
    if ys == [] {
      assert xs + ys == xs;
    } else {
      var n := |ys| - 1;
      assert (xs + ys)[..|xs + ys| - 1] == xs + ys[..n];
      FilterAppend(xs, ys[..n], p);
    }
  }

  /** A distinct sequence over a type with finitely many values is no longer
      than the set of all those values. */
  lemma {:induction false} DistinctBound<T>(xs: seq<T>, universe: set<T>)
    requires Distinct(xs)
    requires forall k :: 0 <= k < |xs| ==> xs[k] in universe
    ensures |xs| <= |universe|
    decreases |xs|
  {
    if xs != [] {
      var x := xs[|xs| - 1];
      var init := xs[..|xs| - 1];
      assert x !in init;
      DistinctBound(init, universe - {x});
    }
  }

  /** The values `f` recognises in `xs`, in order; elements it maps to
      `None` are dropped. */
  function Recognised<A, B>(xs: seq<A>, f: A -> Option<B>): (r: seq<B>)
    ensures |r| <= |xs|
  {
    if xs == [] then []
    else
      var n := |xs| - 1;
      Recognised(xs[..n], f) + (if f(xs[n]).Some? then [f(xs[n]).value] else [])
  }

  /** One more element: its value is appended when recognised. */
  lemma RecognisedStep<A, B>(xs: seq<A>, f: A -> Option<B>, i: nat)
    requires i < |xs|
    ensures Recognised(xs[..i + 1], f) ==
              Recognised(xs[..i], f) + (if f(xs[i]).Some? then [f(xs[i]).value] else [])
  {
    assert xs[..i + 1][..i] == xs[..i];
  }

  /** The value `f` recognises in the last element it recognises. */
  function LastSome<A, B>(xs: seq<A>, f: A -> Option<B>): Option<B> {
    if xs == [] then None
    else if f(xs[|xs| - 1]).Some? then f(xs[|xs| - 1])
    else LastSome(xs[..|xs| - 1], f)
  }

  /** One more element: it decides when recognised. */
  lemma LastSomeStep<A, B>(xs: seq<A>, f: A -> Option<B>, i: nat)
    requires i < |xs|
    ensures LastSome(xs[..i + 1], f) == if f(xs[i]).Some? then f(xs[i]) else LastSome(xs[..i], f)
  {
    assert xs[..i + 1][..i] == xs[..i];
  }

  /** Nothing is found exactly when no element is recognised. */
  lemma {:induction false} LastSomeNone<A, B>(xs: seq<A>, f: A -> Option<B>)
    ensures LastSome(xs, f).None? <==> forall k :: 0 <= k < |xs| ==> f(xs[k]).None?
  {
    if xs != [] {
      var n := |xs| - 1;
      LastSomeNone(xs[..n], f);
      assert forall k :: 0 <= k < n ==> xs[..n][k] == xs[k];
    }
  }

  /** What is found is the value of the last recognised element. */
  lemma {:induction false} LastSomeAt<A, B>(xs: seq<A>, f: A -> Option<B>, k: nat)
    requires k < |xs| && f(xs[k]).Some?
    requires forall j :: k < j < |xs| ==> f(xs[j]).None?
    ensures LastSome(xs, f) == f(xs[k])
  {
    var n := |xs| - 1;
    if k < n {
      assert xs[..n][k] == xs[k];
      assert forall j :: k < j < n ==> xs[..n][j] == xs[j];
      LastSomeAt(xs[..n], f, k);
    }
  }

  /** What is found is the value of some element. */
  lemma {:induction false} LastSomeIn<A, B>(xs: seq<A>, f: A -> Option<B>)
    ensures LastSome(xs, f).Some? ==> exists k :: 0 <= k < |xs| && f(xs[k]) == LastSome(xs, f)
  {
    if xs != [] && f(xs[|xs| - 1]).None? {
      var n := |xs| - 1;
      LastSomeIn(xs[..n], f);
      if LastSome(xs, f).Some? {
        var k :| 0 <= k < n && f(xs[..n][k]) == LastSome(xs, f);
        assert xs[..n][k] == xs[k];
      }
    }
  }

  /** A value is recognised exactly when some element is mapped to it. */
  lemma {:induction false} RecognisedMembership<A, B>(xs: seq<A>, f: A -> Option<B>, y: B)
    ensures y in Recognised(xs, f) <==> exists k :: 0 <= k < |xs| && f(xs[k]) == Some(y)
  {
    if xs != [] {
      var n := |xs| - 1;
      RecognisedMembership(xs[..n], f, y);
      if exists k :: 0 <= k < n && f(xs[..n][k]) == Some(y) {
        var k :| 0 <= k < n && f(xs[..n][k]) == Some(y);
        assert xs[k] == xs[..n][k];
      }
      if exists k :: 0 <= k < |xs| && f(xs[k]) == Some(y) {
        var k :| 0 <= k < |xs| && f(xs[k]) == Some(y);
        if k < n { assert xs[..n][k] == xs[k]; }
      }
    }
  }

  /** Recognition distributes over concatenation. */
  lemma {:induction false} RecognisedAppend<A, B>(xs: seq<A>, ys: seq<A>, f: A -> Option<B>)
    ensures Recognised(xs + ys, f) == Recognised(xs, f) + Recognised(ys, f)
    decreases |ys|
  {
    if ys == [] {
      assert xs + ys == xs;
    } else {
      var n := |ys| - 1;
      assert (xs + ys)[..|xs + ys| - 1] == xs + ys[..n];
      RecognisedAppend(xs, ys[..n], f);
    }
  }

  /** When `f` recognises every element, the recognised values are the images
      of the elements, one each. */
  lemma {:induction false} RecognisedPointwise<A, B>(xs: seq<A>, f: A -> Option<B>, ys: seq<B>)
    requires |xs| == |ys|
    requires forall k :: 0 <= k < |xs| ==> f(xs[k]) == Some(ys[k])
    ensures Recognised(xs, f) == ys
  {
    if xs != [] {
      var n := |xs| - 1;
      RecognisedPointwise(xs[..n], f, ys[..n]);
      assert ys == ys[..n] + [ys[n]];
    }
  }

  /** The sum of `f` over the elements of `xs`. */
  function Sum<T>(xs: seq<T>, f: T -> nat): nat
  {
    if xs == [] then 0 else Sum(xs[..|xs| - 1], f) + f(xs[|xs| - 1])
  }

  /** Sums split over concatenation. */
  lemma {:induction false} SumAppend<T>(xs: seq<T>, ys: seq<T>, f: T -> nat)
    ensures Sum(xs + ys, f) == Sum(xs, f) + Sum(ys, f)
    decreases |ys|
  {
    if ys == [] {
      assert xs + ys == xs;
    } else {
      var n := |ys| - 1;
      assert (xs + ys)[..|xs + ys| - 1] == xs + ys[..n];
      SumAppend(xs, ys[..n], f);
    }
  }

  /** Functions that agree on the elements have the same sum. */
  lemma {:induction false} SumPointwise<T>(xs: seq<T>, f: T -> nat, g: T -> nat)
    requires forall k :: 0 <= k < |xs| ==> f(xs[k]) == g(xs[k])
    ensures Sum(xs, f) == Sum(xs, g)
  {
    if xs != [] {
      SumPointwise(xs[..|xs| - 1], f, g);
    }
  }

  /** Summing terms that each split into two parts sums the parts. */
  lemma {:induction false} SumSplit<T>(xs: seq<T>, f: T -> nat, g: T -> nat, h: T -> nat)
    requires forall k :: 0 <= k < |xs| ==> f(xs[k]) == g(xs[k]) + h(xs[k])
    ensures Sum(xs, f) == Sum(xs, g) + Sum(xs, h)
  {
    if xs != [] {
      SumSplit(xs[..|xs| - 1], f, g, h);
    }
  }

  /** Raising one term of a sum over distinct elements by one raises the sum
      by one. */
  lemma {:induction false} SumBumpOne<T>(xs: seq<T>, f: T -> nat, g: T -> nat, x: T)
    requires Distinct(xs) && x in xs
    requires forall y :: g(y) == f(y) + (if y == x then 1 else 0)
    ensures Sum(xs, g) == Sum(xs, f) + 1
  {
    var n := |xs| - 1;
    var init := xs[..n];
    assert xs == init + [xs[n]];
    if xs[n] == x {
      assert x !in init;
      SumPointwise(init, f, g);
    } else {
      SumBumpOne(init, f, g, x);
    }
  }

  /** A sum of terms each at most `c` is at most `|xs| * c`. */
  lemma {:induction false} SumAtMost<T>(xs: seq<T>, f: T -> nat, c: nat)
    requires forall k :: 0 <= k < |xs| ==> f(xs[k]) <= c
    ensures Sum(xs, f) <= |xs| * c
  {
    if xs != [] {
      SumAtMost(xs[..|xs| - 1], f, c);
    }
  }

  /** A sum is at least any one of its terms. */
  lemma {:induction false} SumAtLeastTerm<T>(xs: seq<T>, f: T -> nat, k: nat)
    requires k < |xs|
    ensures f(xs[k]) <= Sum(xs, f)
  {
    if k < |xs| - 1 {
      SumAtLeastTerm(xs[..|xs| - 1], f, k);
    }
  }

  /** Reordering the terms does not change a sum. */
  lemma {:induction false} SumPermutation<T>(xs: seq<T>, ys: seq<T>, f: T -> nat)
    requires multiset(xs) == multiset(ys)
    ensures Sum(xs, f) == Sum(ys, f)
    decreases |xs|
  {
    if xs != [] {
      var n := |xs| - 1;
      var x := xs[n];
      assert x in multiset(ys) by { assert xs == xs[..n] + [x]; }
      var k :| 0 <= k < |ys| && ys[k] == x;
      var rest := ys[..k] + ys[k + 1..];
      RemoveMatching(xs, ys, k);
      SumPermutation(xs[..n], rest, f);
      SumRemoveAt(xs, n, f);
      SumRemoveAt(ys, k, f);
      assert xs[..n] + xs[n + 1..] == xs[..n];
    }
  }

  /** Taking the same element out of two permutations leaves permutations. */
  lemma RemoveMatching<T>(xs: seq<T>, ys: seq<T>, k: nat)
    requires multiset(xs) == multiset(ys) && xs != [] && k < |ys| && ys[k] == xs[|xs| - 1]
    ensures multiset(xs[..|xs| - 1]) == multiset(ys[..k] + ys[k + 1..])
  {
    var n := |xs| - 1;
    var x := xs[n];
    var rest := ys[..k] + ys[k + 1..];
    assert xs == xs[..n] + [x];
    assert ys == ys[..k] + [x] + ys[k + 1..];
    assert multiset(xs) == multiset(xs[..n]) + multiset{x};
    assert multiset(ys) == multiset(ys[..k]) + multiset{x} + multiset(ys[k + 1..]);
    assert multiset(rest) == multiset(ys[..k]) + multiset(ys[k + 1..]);
    assert multiset(xs[..n]) + multiset{x} == multiset(rest) + multiset{x};
    forall y ensures multiset(xs[..n])[y] == multiset(rest)[y] {
      assert (multiset(xs[..n]) + multiset{x})[y] == (multiset(rest) + multiset{x})[y];
    }
  }

  /** The sum is the term at `k` plus the sum of the others. */
  lemma SumRemoveAt<T>(ys: seq<T>, k: nat, f: T -> nat)
    requires k < |ys|
    ensures Sum(ys, f) == Sum(ys[..k] + ys[k + 1..], f) + f(ys[k])
  {
    var x, a, b := ys[k], ys[..k], ys[k + 1..];
    assert ys == (a + [x]) + b;
    SumAppend(a, [x], f);
    SumAppend(a + [x], b, f);
    SumAppend(a, b, f);
    assert Sum([x], f) == f(x) by { assert [x][..0] == []; }
  }

  /** An element that occurs twice is counted twice by the multiset. */
  lemma RepeatCounted<T>(xs: seq<T>, i: nat, j: nat)
    requires i < j < |xs| && xs[i] == xs[j]
    ensures multiset(xs)[xs[i]] >= 2
  {
    assert xs == xs[..j] + [xs[j]] + xs[j + 1..];
    assert xs[i] in xs[..j];
    assert multiset(xs) == multiset(xs[..j]) + multiset{xs[j]} + multiset(xs[j + 1..]);
  }

  /** A distinct sequence counts each element at most once. */
  lemma {:induction false} DistinctCountedOnce<T>(xs: seq<T>, x: T)
    requires Distinct(xs)
    ensures multiset(xs)[x] <= 1
  {
    if xs != [] {
      var n := |xs| - 1;
      assert xs == xs[..n] + [xs[n]];
      DistinctCountedOnce(xs[..n], x);
      if xs[n] == x {
        assert x !in xs[..n];
      }
    }
  }

  /** A rearrangement of a distinct sequence is distinct. */
  lemma PermutationDistinct<T>(xs: seq<T>, ys: seq<T>)
    requires multiset(xs) == multiset(ys) && Distinct(ys)
    ensures Distinct(xs)
  {
    forall i, j | 0 <= i < j < |xs| ensures xs[i] != xs[j] {
      if xs[i] == xs[j] {
        RepeatCounted(xs, i, j);
        DistinctCountedOnce(ys, xs[i]);
      }
    }
  }

  /** A positive sum has a positive term. */
  lemma {:induction false} SumPositive<T>(xs: seq<T>, f: T -> nat)
    requires Sum(xs, f) > 0
    ensures exists k :: 0 <= k < |xs| && f(xs[k]) > 0
  {
    var n := |xs| - 1;
    if f(xs[n]) == 0 {
      SumPositive(xs[..n], f);
      var k :| 0 <= k < n && f(xs[..n][k]) > 0;
      assert xs[k] == xs[..n][k];
    }
  }
}
