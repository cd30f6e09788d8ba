/** The one global sort of the event rows by the composite key
    (entity id, event time). */
module Ordering {
  import opened Values
  import opened Events

  /** Lexicographic order on (id, event time). Rows with equal keys are
      interchangeable: nothing here fixes their relative order. */
  predicate KeyLe(a: Row, b: Row, idCol: string) {
    IdOf(a, idCol) < IdOf(b, idCol) || (IdOf(a, idCol) == IdOf(b, idCol) && TimeOf(a) <= TimeOf(b))
  }

  predicate SortedByKey(s: seq<Row>, idCol: string) {
    forall i, j :: 0 <= i < j < |s| ==> KeyLe(s[i], s[j], idCol)
  }

  /** Rows ordered by non-decreasing event time. */
  predicate TimeOrdered(s: seq<Row>) {
    forall i, j :: 0 <= i < j < |s| ==> TimeOf(s[i]) <= TimeOf(s[j])
  }

  predicate NonDecreasing(xs: seq<int>) {
    forall i, j :: 0 <= i < j < |xs| ==> xs[i] <= xs[j]
  }

  /** Places `x` into a sorted sequence. */
  function Insert(x: Row, s: seq<Row>, idCol: string): (r: seq<Row>)
    requires SortedByKey(s, idCol)
    ensures SortedByKey(r, idCol)
    ensures multiset(r) == multiset(s) + multiset{x}
    ensures forall y :: y in r <==> y == x || y in s
  {
    if s == [] then [x]
    else if KeyLe(x, s[0], idCol) then [x] + s
    else
      var rest := Insert(x, s[1..], idCol);
      assert s == [s[0]] + s[1..];
      assert forall y :: y in rest ==> KeyLe(s[0], y, idCol);
      [s[0]] + rest
  }

  /** The rows sorted by (id, event time): a sorted permutation of the
      input. */
  function SortByKey(s: seq<Row>, idCol: string): (r: seq<Row>)
    ensures SortedByKey(r, idCol)
    ensures multiset(r) == multiset(s)
    ensures forall y :: y in r <==> y in s
  {
    if s == [] then []
    else
      assert s == [s[0]] + s[1..];
      Insert(s[0], SortByKey(s[1..], idCol), idCol)
  }

  /** The ids of key-sorted rows never decrease. */
  lemma SortedIdsNonDecreasing(s: seq<Row>, idCol: string)
    requires SortedByKey(s, idCol)
    ensures NonDecreasing(Ids(s, idCol))
  {
    var ids := Ids(s, idCol);
    forall i, j | 0 <= i < j < |ids|
      ensures ids[i] <= ids[j]
    {
      assert KeyLe(s[i], s[j], idCol);
    }
  }

  /** Selecting one entity from key-sorted rows keeps them key-sorted. */
  lemma {:induction false} RowsWithIdKeepsOrder(s: seq<Row>, idCol: string, u: int)
    requires SortedByKey(s, idCol)
    ensures SortedByKey(RowsWithId(s, idCol, u), idCol)
  {
    if s != [] {
      RowsWithIdKeepsOrder(s[1..], idCol, u);
      var rest := RowsWithId(s[1..], idCol, u);
      assert forall y :: y in rest ==> y in s[1..];
      forall y | y in rest
        ensures KeyLe(s[0], y, idCol)
      {
        var k :| 0 <= k < |s[1..]| && s[1..][k] == y;
        assert s[k + 1] == y;
      }
    }
  }

  /** The rows of one entity taken from key-sorted rows are time-ordered. */
  lemma EntityRowsTimeOrdered(s: seq<Row>, idCol: string, u: int)
    requires SortedByKey(s, idCol)
    ensures TimeOrdered(RowsWithId(s, idCol, u))
  {
    var g := RowsWithId(s, idCol, u);
    RowsWithIdKeepsOrder(s, idCol, u);
    forall i, j | 0 <= i < j < |g|
      ensures TimeOf(g[i]) <= TimeOf(g[j])
    {
      assert g[i] in g && g[j] in g;
      assert KeyLe(g[i], g[j], idCol);
    }
  }
}
