/**
  Removing whole folded headers from a list of lines. `folds(l)` says that a line
  continues the one before it, `drops(l)` that a header starting with it goes.
 */
module FoldedHeaders {
  import opened Sequences

  /** The flag carried from line to line. */
  predicate Skips<T>(line: T, skipping: bool, folds: T -> bool, drops: T -> bool) {
    if folds(line) then skipping else drops(line)
  }

  /** One pass over the lines, as the rewriter makes it. */
  function Kept<T>(lines: seq<T>, skipping: bool, folds: T -> bool, drops: T -> bool): seq<T>
    decreases lines
  {
    if lines == [] then []
    else
      var skip := Skips(lines[0], skipping, folds, drops);
      var rest := Kept(lines[1..], skip, folds, drops);
      if skip then rest else [lines[0]] + rest
  }

  lemma KeptCons<T>(line: T, lines: seq<T>, skipping: bool, folds: T -> bool, drops: T -> bool)
    ensures var skip := Skips(line, skipping, folds, drops);
            Kept([line] + lines, skipping, folds, drops)
            == if skip then Kept(lines, skip, folds, drops) else [line] + Kept(lines, skip, folds, drops)
  {
    assert ([line] + lines)[1..] == lines;
  }

  /** A kept line is one at which the flag was down. */
  lemma {:induction false} KeptMembers<T>(lines: seq<T>, skipping: bool, folds: T -> bool, drops: T -> bool)
    ensures forall l <- Kept(lines, skipping, folds, drops) :: l in lines && (folds(l) || !drops(l))
    ensures |Kept(lines, skipping, folds, drops)| <= |lines|
    decreases lines
  {
    if lines != [] {
      KeptMembers(lines[1..], Skips(lines[0], skipping, folds, drops), folds, drops);
      assert lines == [lines[0]] + lines[1..];
    }
  }

  predicate StartsFolded<T>(lines: seq<T>, folds: T -> bool) {
    lines != [] && folds(lines[0])
  }

  /** Keeping what was kept keeps all of it. */
  lemma {:induction false} KeptIdempotent<T>(lines: seq<T>, skipping: bool, folds: T -> bool, drops: T -> bool)
    ensures Kept(Kept(lines, skipping, folds, drops), false, folds, drops) == Kept(lines, skipping, folds, drops)
    ensures skipping ==> !StartsFolded(Kept(lines, skipping, folds, drops), folds)
    decreases lines
  {
    if lines != [] {
      var skip := Skips(lines[0], skipping, folds, drops);
      var rest := Kept(lines[1..], skip, folds, drops);
      KeptIdempotent(lines[1..], skip, folds, drops);
      if !skip {
        assert ([lines[0]] + rest)[1..] == rest;
      }
    }
  }

  /** Starting with the flag up matters only to a list that starts folded. */
  lemma KeptSkipping<T>(lines: seq<T>, folds: T -> bool, drops: T -> bool)
    ensures !StartsFolded(lines, folds) ==> Kept(lines, true, folds, drops) == Kept(lines, false, folds, drops)
    ensures StartsFolded(lines, folds) ==> |Kept(lines, true, folds, drops)| < |lines|
  {
    if lines != [] {
      KeptMembers(lines[1..], true, folds, drops);
    }
  }

  lemma KeptFirst<T>(lines: seq<T>, folds: T -> bool, drops: T -> bool)
    ensures StartsFolded(Kept(lines, false, folds, drops), folds) <==> StartsFolded(lines, folds)
  {
    if lines != [] {
      KeptIdempotent(lines[1..], true, folds, drops);
    }
  }

  // -------------------------------------------------------- whole headers

  /** How many leading lines continue something before them. */
  function Folded<T>(lines: seq<T>, folds: T -> bool): (n: nat)
    ensures n <= |lines|
    ensures n < |lines| ==> !folds(lines[n])
  {
    if lines == [] || !folds(lines[0]) then 0 else 1 + Folded(lines[1..], folds)
  }

  /** A line with the continuation lines under it; folded lines with no header above form one group. */
  function Headers<T>(lines: seq<T>, folds: T -> bool): seq<seq<T>> {
    if lines == [] then []
    else
      var n := 1 + Folded(lines[1..], folds);
      [lines[..n]] + Headers(lines[n..], folds)
  }

  function Flatten<T>(headers: seq<seq<T>>): seq<T> {
    if headers == [] then [] else headers[0] + Flatten(headers[1..])
  }

  /** The headers that stay. */
  function Selected<T>(headers: seq<seq<T>>, folds: T -> bool, drops: T -> bool): seq<seq<T>> {
    if headers == [] then []
    else
      var rest := Selected(headers[1..], folds, drops);
      if headers[0] != [] && !folds(headers[0][0]) && drops(headers[0][0]) then rest else [headers[0]] + rest
  }

  /** Grouping loses and reorders nothing. */
  lemma {:induction false} HeadersPartition<T>(lines: seq<T>, folds: T -> bool)
    ensures Flatten(Headers(lines, folds)) == lines
    decreases |lines|
  {
    if lines != [] {
      var n := 1 + Folded(lines[1..], folds);
      var rest := Headers(lines[n..], folds);
      HeadersPartition(lines[n..], folds);
      assert ([lines[..n]] + rest)[1..] == rest;
      assert lines == lines[..n] + lines[n..];
    }
  }

  lemma {:induction false} KeptFolded<T>(lines: seq<T>, skipping: bool, folds: T -> bool, drops: T -> bool)
    ensures var n := Folded(lines, folds);
            Kept(lines, skipping, folds, drops)
            == (if skipping then [] else lines[..n]) + Kept(lines[n..], false, folds, drops)
    decreases lines
  {
    var n := Folded(lines, folds);
    if n == 0 {
      assert lines[n..] == lines;
    } else {
      KeptFolded(lines[1..], skipping, folds, drops);
      assert lines[1..][n - 1..] == lines[n..];
      assert lines[..n] == [lines[0]] + lines[1..][..n - 1];
    }
  }

  /** Keeping a header whole or dropping it whole. */
  lemma KeptHeader<T>(lines: seq<T>, folds: T -> bool, drops: T -> bool)
    requires lines != []
    ensures var n := 1 + Folded(lines[1..], folds);
            Kept(lines, false, folds, drops)
            == (if Skips(lines[0], false, folds, drops) then [] else lines[..n]) + Kept(lines[n..], false, folds, drops)
  {
    var m := Folded(lines[1..], folds);
    var skip := Skips(lines[0], false, folds, drops);
    var after := Kept(lines[1 + m..], false, folds, drops);
    KeptFolded(lines[1..], skip, folds, drops);
    SplitAfterHead(lines, m);
    Assoc([lines[0]], lines[1..][..m], after);
    EmptyLeft(after);
  }

  lemma FlattenCons<T>(group: seq<T>, rest: seq<seq<T>>)
    ensures Flatten([group] + rest) == group + Flatten(rest)
  {
    assert ([group] + rest)[1..] == rest;
  }

  lemma SelectedCons<T>(group: seq<T>, rest: seq<seq<T>>, folds: T -> bool, drops: T -> bool)
    requires group != []
    ensures var chosen := Selected(rest, folds, drops);
            Selected([group] + rest, folds, drops)
            == if !folds(group[0]) && drops(group[0]) then chosen else [group] + chosen
  {
    assert ([group] + rest)[1..] == rest;
  }

  /** The kept lines are the headers that stay, each whole and in order. */
  lemma {:induction false} KeptWholeHeaders<T>(lines: seq<T>, folds: T -> bool, drops: T -> bool)
    ensures Kept(lines, false, folds, drops) == Flatten(Selected(Headers(lines, folds), folds, drops))
    decreases |lines|
  {
    if lines != [] {
      var n := 1 + Folded(lines[1..], folds);
      var group, rest := lines[..n], Headers(lines[n..], folds);
      KeptHeader(lines, folds, drops);
      KeptWholeHeaders(lines[n..], folds, drops);
      SelectedCons(group, rest, folds, drops);
      FlattenCons(group, Selected(rest, folds, drops));
      EmptyLeft(Flatten(Selected(rest, folds, drops)));
    }
  }
}
