/** The distinct entity ids, in order of first appearance, as pandas'
    `unique` lists them. */
module Distinct {
  import opened Ordering

  predicate NoDuplicates(xs: seq<int>) {
    forall i, j :: 0 <= i < j < |xs| ==> xs[i] != xs[j]
  }

  predicate StrictlyIncreasing(xs: seq<int>) {
    forall i, j :: 0 <= i < j < |xs| ==> xs[i] < xs[j]
  }

  /** The distinct values of `xs`, each once; `UniqueInFirstOccurrenceOrder`
      shows they are listed in order of first occurrence. */
  function Unique(xs: seq<int>): (u: seq<int>)
    ensures forall x :: x in u <==> x in xs
    ensures NoDuplicates(u)
    ensures |u| <= |xs|
  {
    if xs == [] then []
    else
      var front := xs[..|xs| - 1];
      var last := xs[|xs| - 1];
      assert xs == front + [last];
      var p := Unique(front);
      if last in p then p else p + [last]
  }

  /** The position of the first occurrence of `x` in `xs`. */
  function FirstIndex(xs: seq<int>, x: int): (i: nat)
    requires x in xs
    ensures i < |xs| && xs[i] == x
    ensures forall j :: 0 <= j < i ==> xs[j] != x
  {
    if xs[0] == x then 0 else 1 + FirstIndex(xs[1..], x)
  }

  /** Appending an element does not move the first occurrence of a value
      already present. */
  lemma FirstIndexOfPrefix(front: seq<int>, last: int, x: int)
    requires x in front
    ensures FirstIndex(front + [last], x) == FirstIndex(front, x)
  {
    assert (front + [last])[FirstIndex(front, x)] == x;
  }

  /** The distinct values come out in the order of their first occurrence
      in the input, as pandas' `unique` lists them. */
  lemma {:induction false} UniqueInFirstOccurrenceOrder(xs: seq<int>)
    ensures forall i, j :: 0 <= i < j < |Unique(xs)| ==>
      FirstIndex(xs, Unique(xs)[i]) < FirstIndex(xs, Unique(xs)[j])
  {
    if xs != [] {
      var front := xs[..|xs| - 1];
      var last := xs[|xs| - 1];
      assert xs == front + [last];
      UniqueInFirstOccurrenceOrder(front);
      var p := Unique(front);
      assert Unique(xs) == if last in p then p else p + [last];
      var u := Unique(xs);
      forall i, j | 0 <= i < j < |u|
        ensures FirstIndex(xs, u[i]) < FirstIndex(xs, u[j])
      {
        assert u[i] in p;
        FirstIndexOfPrefix(front, last, u[i]);
        if j < |p| {
          assert u[j] == p[j];
          FirstIndexOfPrefix(front, last, u[j]);
        } else {
          assert u[j] == last && last !in front;
          assert FirstIndex(xs, u[j]) == |xs| - 1;
        }
      }
    }
  }

  /** Deduplicating a non-decreasing sequence yields a strictly increasing
      one: the unique ids of sorted rows come out in ascending order. */
  lemma {:induction false} UniqueOfSorted(xs: seq<int>)
    requires NonDecreasing(xs)
    ensures StrictlyIncreasing(Unique(xs))
  {
    if xs != [] {
      var front := xs[..|xs| - 1];
      var last := xs[|xs| - 1];
      assert xs == front + [last];
      UniqueOfSorted(front);
      var p := Unique(front);
      assert Unique(xs) == if last in p then p else p + [last];
      if last !in p {
        forall x | x in p
          ensures x < last
        {
          var i :| 0 <= i < |front| && front[i] == x;
          assert xs[i] <= xs[|xs| - 1];
        }
        var u := p + [last];
        forall i, j | 0 <= i < j < |u|
          ensures u[i] < u[j]
        {
          if j == |u| - 1 {
            assert u[i] in p;
          }
        }
      }
    }
  }

  /** A sequence without duplicates has as many elements as its set. */
  lemma {:induction false} DistinctCardinality(xs: seq<int>)
    requires NoDuplicates(xs)
    ensures |set x | x in xs| == |xs|
  {
    if xs != [] {
      var rest := xs[1..];
      DistinctCardinality(rest);
      assert xs == [xs[0]] + rest;
      forall i | 0 <= i < |rest|
        ensures rest[i] != xs[0]
      {
        assert rest[i] == xs[i + 1];
      }
      assert (set x | x in xs) == (set x | x in rest) + {xs[0]};
    }
  }
}
