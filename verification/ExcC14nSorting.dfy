/**
  The two sorts of the writer (declarations, then attributes): the result is
  ordered, is a permutation, and depends on nothing but the set of lines.
 */
module ExcC14nSorting {
  import opened StringOrder
  import StableSort
  import opened ExcC14n

  // -------------------------------------------------------- the line order

  lemma LineLeTotal(a: Line, b: Line)
    ensures LineLe(a, b) || LineLe(b, a)
    ensures LineLe(a, b) && LineLe(b, a) ==> a.major == b.major && a.minor == b.minor
  {
    StringLeTotal(a.major, b.major);
    StringLeTotal(a.minor, b.minor);
  }

  lemma LineLeTransitive(a: Line, b: Line, c: Line)
    requires LineLe(a, b) && LineLe(b, c)
    ensures LineLe(a, c)
  {
    if a.major == b.major == c.major {
      StringLeTransitive(a.minor, b.minor, c.minor);
    } else if a.major != b.major && b.major != c.major {
      StringLeTransitive(a.major, b.major, c.major);
      if a.major == c.major {
        StringLeTotal(a.major, b.major);
      }
    }
  }

  lemma LineOrder()
    ensures StableSort.TotalOrder(LineLe)
  {
    forall a, b
      ensures LineLe(a, b) || LineLe(b, a)
    {
      LineLeTotal(a, b);
    }
    forall a, b, c | LineLe(a, b) && LineLe(b, c)
      ensures LineLe(a, c)
    {
      LineLeTransitive(a, b, c);
    }
  }

  // -------------------------------------------------------------- the sort

  /** Sorting orders the lines and keeps every one of them. */
  lemma SortOrders(lines: seq<Line>)
    ensures StableSort.Ordered(Sort(lines), LineLe)
    ensures multiset(Sort(lines)) == multiset(lines)
    ensures |Sort(lines)| == |lines|
    ensures forall l :: l in Sort(lines) <==> l in lines
  {
    LineOrder();
    StableSort.SortOrders(lines, LineLe);
    SameMultiset(Sort(lines), lines);
  }

  lemma SameMultiset(a: seq<Line>, b: seq<Line>)
    requires multiset(a) == multiset(b)
    ensures |a| == |b| && forall l :: l in a <==> l in b
  {
    assert |multiset(a)| == |multiset(b)|;
    forall l
      ensures l in a <==> l in b
    {
      assert l in a <==> l in multiset(a);
      assert l in b <==> l in multiset(b);
    }
  }

  /** Lines are determined by the keys they are sorted by. */
  predicate Keyed(lines: seq<Line>) {
    forall a, b :: a in lines && b in lines && a.major == b.major && a.minor == b.minor ==> a == b
  }

  lemma OrderedHeads(a: seq<Line>, b: seq<Line>)
    requires StableSort.Ordered(a, LineLe) && StableSort.Ordered(b, LineLe) && Keyed(a) && a != [] && b != []
    requires a[0] in b && b[0] in a
    ensures a[0] == b[0]
  {
    LineLeTotal(a[0], a[0]);
    LineLeTotal(b[0], b[0]);
    var i :| 0 <= i < |a| && a[i] == b[0];
    var j :| 0 <= j < |b| && b[j] == a[0];
    LineLeTotal(a[0], b[0]);
  }

  lemma MultisetTail(s: seq<Line>)
    requires s != []
    ensures multiset(s[1..]) == multiset(s) - multiset{s[0]}
  {
    assert s == [s[0]] + s[1..];
  }

  lemma {:induction false} OrderedUnique(a: seq<Line>, b: seq<Line>)
    requires StableSort.Ordered(a, LineLe) && StableSort.Ordered(b, LineLe) && multiset(a) == multiset(b) && Keyed(a)
    ensures a == b
  {
    assert |multiset(a)| == |a| && |multiset(b)| == |b|;
    if a != [] {
      assert a[0] in multiset(b) && b[0] in multiset(a);
      OrderedHeads(a, b);
      MultisetTail(a);
      MultisetTail(b);
      OrderedUnique(a[1..], b[1..]);
    }
  }

  /** Two orders of the same distinctly keyed lines sort to the same sequence. */
  lemma SortForgetsOrder(a: seq<Line>, b: seq<Line>)
    requires multiset(a) == multiset(b) && Keyed(a)
    ensures Sort(a) == Sort(b)
  {
    SortOrders(a);
    SortOrders(b);
    OrderedUnique(Sort(a), Sort(b));
  }

  // ---------------------------------------------- sorting looks at keys only

  predicate SameKeys(a: seq<Line>, b: seq<Line>) {
    |a| == |b| && forall i :: 0 <= i < |a| ==> a[i].major == b[i].major && a[i].minor == b[i].minor
  }

  lemma {:induction false} InsertSameKeys(x: Line, y: Line, a: seq<Line>, b: seq<Line>)
    requires SameKeys([x], [y]) && SameKeys(a, b)
    ensures SameKeys(StableSort.Insert(x, a, LineLe), StableSort.Insert(y, b, LineLe))
  {
    assert x.major == [x][0].major && y.major == [y][0].major && x.minor == [x][0].minor && y.minor == [y][0].minor;
    if a != [] && LineLe(a[0], x) {
      InsertSameKeys(x, y, a[1..], b[1..]);
    }
  }

  lemma {:induction false} SortSameKeys(a: seq<Line>, b: seq<Line>)
    requires SameKeys(a, b)
    ensures SameKeys(Sort(a), Sort(b))
  {
    if a != [] {
      SortSameKeys(a[..|a| - 1], b[..|b| - 1]);
      InsertSameKeys(a[|a| - 1], b[|b| - 1], Sort(a[..|a| - 1]), Sort(b[..|b| - 1]));
    }
  }

  /** Printed fields of equally keyed lines determine the lines themselves. */
  lemma SortedLinesEqual(a: seq<Line>, b: seq<Line>)
    requires SameKeys(a, b) && Fields(Sort(a)) == Fields(Sort(b))
    ensures Sort(a) == Sort(b)
  {
    SortSameKeys(a, b);
    var sa, sb := Sort(a), Sort(b);
    forall i | 0 <= i < |sa|
      ensures sa[i] == sb[i]
    {
      assert Fields(sa)[i] == Fields(sb)[i];
    }
  }

  lemma FieldsDetermineLines(a: seq<Line>, b: seq<Line>)
    requires SameKeys(a, b)
    requires forall i, j :: 0 <= i < j < |a| ==> (a[i].major, a[i].minor) != (a[j].major, a[j].minor)
    requires Fields(Sort(a)) == Fields(Sort(b))
    ensures a == b
  {
    SortedLinesEqual(a, b);
    SortOrders(a);
    SortOrders(b);
    SameLinesSameKeys(a, b);
  }

  lemma SameLinesSameKeys(a: seq<Line>, b: seq<Line>)
    requires SameKeys(a, b) && multiset(a) == multiset(b)
    requires forall i, j :: 0 <= i < j < |a| ==> (a[i].major, a[i].minor) != (a[j].major, a[j].minor)
    ensures a == b
  {
    forall i | 0 <= i < |a|
      ensures a[i] == b[i]
    {
      assert a[i] in multiset(b);
      var j :| 0 <= j < |b| && b[j] == a[i];
      assert a[j].major == a[i].major && a[j].minor == a[i].minor;
    }
  }
}
