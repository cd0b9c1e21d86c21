/** Sequence equalities, stated once so that proofs can cite them instead of searching for them. */
module Sequences {
  lemma Assoc<T>(a: seq<T>, b: seq<T>, c: seq<T>)
    ensures a + (b + c) == a + b + c
  {
  }

  lemma EmptyLeft<T>(s: seq<T>)
    ensures [] + s == s
  {
  }

  lemma HeadTail<T>(s: seq<T>)
    requires s != []
    ensures [s[0]] + s[1..] == s
  {
  }

  lemma NotInAppend<T>(x: T, a: seq<T>, b: seq<T>)
    requires x !in a && x !in b
    ensures x !in a + b
  {
  }

  lemma SplitAfterHead<T>(s: seq<T>, m: nat)
    requires m < |s|
    ensures s[1..][m..] == s[1 + m..] && s[..1 + m] == [s[0]] + s[1..][..m]
  {
  }

  function Filter<T>(s: seq<T>, keep: T -> bool): seq<T> {
    if s == [] then [] else (if keep(s[0]) then [s[0]] else []) + Filter(s[1..], keep)
  }

  function Shift(places: seq<nat>): (later: seq<nat>)
    ensures |later| == |places| && forall k :: 0 <= k < |later| ==> later[k] == places[k] + 1
  {
    seq(|places|, k requires 0 <= k < |places| => places[k] + 1)
  }

  /** `kept` are exactly the elements of `s` that pass, found at the places `at`, in order. */
  ghost predicate FilteredAt<T>(s: seq<T>, keep: T -> bool, kept: seq<T>, at: seq<nat>) {
    && |at| == |kept|
    && (forall k :: 0 <= k < |at| ==> at[k] < |s| && keep(s[at[k]]) && kept[k] == s[at[k]])
    && (forall j, k :: 0 <= j < k < |at| ==> at[j] < at[k])
    && (forall i :: 0 <= i < |s| && keep(s[i]) ==> i in at)
  }

  lemma FilterSkips<T>(first: T, rest: seq<T>, keep: T -> bool, kept: seq<T>, at: seq<nat>)
    requires FilteredAt(rest, keep, kept, at) && !keep(first)
    ensures FilteredAt([first] + rest, keep, kept, Shift(at))
  {
    AllSkipped(first, rest, keep, at);
    SkippedInPlace(first, rest, keep, kept, at);
  }

  lemma AllSkipped<T>(first: T, rest: seq<T>, keep: T -> bool, at: seq<nat>)
    requires !keep(first) && forall i :: 0 <= i < |rest| && keep(rest[i]) ==> i in at
    ensures forall i :: 0 <= i < |[first] + rest| && keep(([first] + rest)[i]) ==> i in Shift(at)
  {
    var s := [first] + rest;
    forall i | 0 <= i < |s| && keep(s[i])
      ensures i in Shift(at)
    {
      assert i > 0 && s[i] == rest[i - 1];
      var k :| 0 <= k < |at| && at[k] == i - 1;
      assert Shift(at)[k] == i;
    }
  }

  lemma SkippedInPlace<T>(first: T, rest: seq<T>, keep: T -> bool, kept: seq<T>, at: seq<nat>)
    requires |at| == |kept|
    requires forall k :: 0 <= k < |at| ==> at[k] < |rest| && keep(rest[at[k]]) && kept[k] == rest[at[k]]
    ensures var s, all := [first] + rest, Shift(at);
            forall k :: 0 <= k < |all| ==> all[k] < |s| && keep(s[all[k]]) && kept[k] == s[all[k]]
  {
    var s, all := [first] + rest, Shift(at);
    forall k | 0 <= k < |all|
      ensures all[k] < |s| && keep(s[all[k]]) && kept[k] == s[all[k]]
    {
      assert all[k] == at[k] + 1 && s[all[k]] == rest[at[k]];
    }
  }

  lemma FilterTakes<T>(first: T, rest: seq<T>, keep: T -> bool, kept: seq<T>, at: seq<nat>)
    requires FilteredAt(rest, keep, kept, at) && keep(first)
    ensures FilteredAt([first] + rest, keep, [first] + kept, [0] + Shift(at))
  {
    AllTaken(first, rest, keep, at);
    TakenInPlace(first, rest, keep, kept, at);
    TakenFirst(at);
  }

  lemma TakenFirst(at: seq<nat>)
    requires forall j, k :: 0 <= j < k < |at| ==> at[j] < at[k]
    ensures var all := [0] + Shift(at);
            forall j, k :: 0 <= j < k < |all| ==> all[j] < all[k]
  {
    var all := [0] + Shift(at);
    assert forall k :: 0 <= k < |all| ==> all[k] == if k == 0 then 0 else at[k - 1] + 1;
  }

  lemma AllTaken<T>(first: T, rest: seq<T>, keep: T -> bool, at: seq<nat>)
    requires forall i :: 0 <= i < |rest| && keep(rest[i]) ==> i in at
    ensures forall i :: 0 <= i < |[first] + rest| && keep(([first] + rest)[i]) ==> i in [0] + Shift(at)
  {
    var s, all := [first] + rest, [0] + Shift(at);
    forall i | 0 <= i < |s| && keep(s[i])
      ensures i in all
    {
      if i > 0 {
        var k :| 0 <= k < |at| && at[k] == i - 1;
        assert all[k + 1] == i;
      }
    }
  }

  lemma TakenInPlace<T>(first: T, rest: seq<T>, keep: T -> bool, kept: seq<T>, at: seq<nat>)
    requires |at| == |kept| && keep(first)
    requires forall k :: 0 <= k < |at| ==> at[k] < |rest| && keep(rest[at[k]]) && kept[k] == rest[at[k]]
    ensures var s, all, both := [first] + rest, [0] + Shift(at), [first] + kept;
            forall k :: 0 <= k < |all| ==> all[k] < |s| && keep(s[all[k]]) && both[k] == s[all[k]]
  {
    var s, all, both := [first] + rest, [0] + Shift(at), [first] + kept;
    forall k | 0 <= k < |all|
      ensures all[k] < |s| && keep(s[all[k]]) && both[k] == s[all[k]]
    {
      if k > 0 {
        assert all[k] == at[k - 1] + 1 && s[all[k]] == rest[at[k - 1]] && both[k] == kept[k - 1];
      }
    }
  }

  /** Filtering keeps every element that passes, in order. */
  lemma {:induction false} FilterAll<T>(s: seq<T>, keep: T -> bool) returns (at: seq<nat>)
    ensures FilteredAt(s, keep, Filter(s, keep), at)
  {
    if s == [] {
      at := [];
    } else {
      at := FilterAll(s[1..], keep);
      HeadTail(s);
      if keep(s[0]) {
        FilterTakes(s[0], s[1..], keep, Filter(s[1..], keep), at);
        at := [0] + Shift(at);
      } else {
        FilterSkips(s[0], s[1..], keep, Filter(s[1..], keep), at);
        EmptyLeft(Filter(s[1..], keep));
        at := Shift(at);
      }
    }
  }

  /** Undoing one concatenation. */
  lemma Cut<T>(a: seq<T>, b: seq<T>)
    ensures a <= a + b && (a + b)[..|a|] == a && (a + b)[|a|..] == b
  {
  }
}
