/**
  The standard library's stable sorts, as insertion after every element that is
  not greater: equal keys keep the order they came in.
 */
module StableSort {

  function Insert<T>(x: T, sorted: seq<T>, le: (T, T) -> bool): seq<T> {
    if sorted == [] || !le(sorted[0], x) then [x] + sorted else [sorted[0]] + Insert(x, sorted[1..], le)
  }

  function Sort<T>(xs: seq<T>, le: (T, T) -> bool): seq<T> {
    if xs == [] then [] else Insert(xs[|xs| - 1], Sort(xs[..|xs| - 1], le), le)
  }

  ghost predicate TotalOrder<T(!new)>(le: (T, T) -> bool) {
    && (forall a, b :: le(a, b) || le(b, a))
    && (forall a, b, c :: le(a, b) && le(b, c) ==> le(a, c))
  }

  predicate Ordered<T>(xs: seq<T>, le: (T, T) -> bool) {
    forall i, j :: 0 <= i < j < |xs| ==> le(xs[i], xs[j])
  }

  lemma OrderedCons<T>(head: T, rest: seq<T>, le: (T, T) -> bool)
    requires Ordered(rest, le) && forall x <- rest :: le(head, x)
    ensures Ordered([head] + rest, le)
  {
  }

  lemma {:induction false} InsertKeeps<T>(x: T, sorted: seq<T>, le: (T, T) -> bool)
    ensures multiset(Insert(x, sorted, le)) == multiset(sorted) + multiset{x}
  {
    if sorted != [] && le(sorted[0], x) {
      InsertKeeps(x, sorted[1..], le);
      assert sorted == [sorted[0]] + sorted[1..];
    }
  }

  lemma InsertMembers<T>(x: T, sorted: seq<T>, le: (T, T) -> bool, y: T)
    requires y in Insert(x, sorted, le)
    ensures y == x || y in sorted
  {
    InsertKeeps(x, sorted, le);
    assert y in multiset(Insert(x, sorted, le));
  }

  lemma {:induction false} InsertOrders<T(!new)>(x: T, sorted: seq<T>, le: (T, T) -> bool)
    requires TotalOrder(le) && Ordered(sorted, le)
    ensures Ordered(Insert(x, sorted, le), le)
  {
    if sorted != [] && le(sorted[0], x) {
      InsertOrders(x, sorted[1..], le);
      forall y | y in Insert(x, sorted[1..], le)
        ensures le(sorted[0], y)
      {
        InsertMembers(x, sorted[1..], le, y);
      }
      OrderedCons(sorted[0], Insert(x, sorted[1..], le), le);
    } else if sorted != [] {
      forall y | y in sorted
        ensures le(x, y)
      {
        assert le(x, sorted[0]) && (y == sorted[0] || le(sorted[0], y));
      }
      OrderedCons(x, sorted, le);
    }
  }

  lemma {:induction false} SortKeeps<T>(xs: seq<T>, le: (T, T) -> bool)
    ensures multiset(Sort(xs, le)) == multiset(xs)
  {
    if xs != [] {
      var front, last := xs[..|xs| - 1], xs[|xs| - 1];
      SortKeeps(front, le);
      InsertKeeps(last, Sort(front, le), le);
      assert xs == front + [last];
    }
  }

  /** Sorting orders the elements and keeps every one of them. */
  lemma {:induction false} SortOrders<T(!new)>(xs: seq<T>, le: (T, T) -> bool)
    requires TotalOrder(le)
    ensures Ordered(Sort(xs, le), le) && multiset(Sort(xs, le)) == multiset(xs)
  {
    SortKeeps(xs, le);
    if xs != [] {
      SortOrders(xs[..|xs| - 1], le);
      InsertOrders(xs[|xs| - 1], Sort(xs[..|xs| - 1], le), le);
    }
  }
}
