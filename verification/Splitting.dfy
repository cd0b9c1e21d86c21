/** Splitting a string at separator characters, and what the words are, position by position. */
module Splitting {
  datatype Span = Span(from: nat, to: nat)

  /** The words of `s` without empty ones, `word` being the letters read of the first. */
  function Split(s: string, word: string, separates: char -> bool): seq<string>
    decreases s
  {
    if s == "" then (if word == "" then [] else [word])
    else if separates(s[0]) then (if word == "" then [] else [word]) + Split(s[1..], "", separates)
    else Split(s[1..], word + [s[0]], separates)
  }

  /** A maximal stretch without separators. */
  predicate IsWord(s: string, span: Span, separates: char -> bool) {
    && span.from < span.to <= |s|
    && (forall k :: span.from <= k < span.to ==> !separates(s[k]))
    && (span.from > 0 ==> separates(s[span.from - 1])) && (span.to < |s| ==> separates(s[span.to]))
  }

  /** `spans` are all the words of `s`, from left to right. */
  ghost predicate AreWords(s: string, spans: seq<Span>, separates: char -> bool) {
    && (forall i :: 0 <= i < |spans| ==> IsWord(s, spans[i], separates))
    && (forall i, j :: 0 <= i < j < |spans| ==> spans[i].to < spans[j].from)
    && (forall span :: IsWord(s, span, separates) ==> span in spans)
  }

  function Texts(s: string, spans: seq<Span>): (texts: seq<string>)
    requires Inside(s, spans)
    ensures |texts| == |spans| && forall i :: 0 <= i < |texts| ==> texts[i] == s[spans[i].from..spans[i].to]
  {
    seq(|spans|, i requires 0 <= i < |spans| => s[spans[i].from..spans[i].to])
  }

  /** `spans` are all the words that start at `from` or later, from left to right. */
  ghost predicate Finds(spans: seq<Span>, from: nat, word: Span -> bool) {
    && (forall i :: 0 <= i < |spans| ==> word(spans[i]) && from <= spans[i].from)
    && (forall i, j :: 0 <= i < j < |spans| ==> spans[i].to < spans[j].from)
    && (forall span :: word(span) && from <= span.from ==> span in spans)
  }

  function WordOf(s: string, separates: char -> bool): Span -> bool {
    (span: Span) => IsWord(s, span, separates)
  }

  predicate Inside(s: string, spans: seq<Span>) {
    forall i :: 0 <= i < |spans| ==> spans[i].from <= spans[i].to <= |s|
  }

  /** From `at` on, having read the letters from `from` to `at` of a word. */
  lemma {:induction false} SplitFinds(s: string, from: nat, at: nat, separates: char -> bool) returns (spans: seq<Span>)
    requires from <= at <= |s| && (from > 0 ==> separates(s[from - 1]))
    requires forall k :: from <= k < at ==> !separates(s[k])
    ensures Finds(spans, from, WordOf(s, separates)) && Inside(s, spans)
    ensures Split(s[at..], s[from..at], separates) == Texts(s, spans)
    decreases |s| - at
  {
    var first := if from == at then [] else [Span(from, at)];
    SplitStep(s, from, at, separates);
    if at == |s| {
      spans := first;
      WordsAtEnd(s, from, separates);
    } else if separates(s[at]) {
      var later := SplitFinds(s, at + 1, at + 1, separates);
      spans := first + later;
      WordsAtSeparator(s, from, at, separates);
      JoinFinds(from, at, later, WordOf(s, separates));
      TextsAppend(s, first, later);
    } else {
      spans := SplitFinds(s, from, at + 1, separates);
    }
  }

  /** One character of the split. */
  lemma SplitStep(s: string, from: nat, at: nat, separates: char -> bool)
    requires from <= at <= |s|
    ensures var first := if from == at then [] else [Span(from, at)];
            Inside(s, first) &&
            Split(s[at..], s[from..at], separates)
            == if at == |s| then Texts(s, first)
               else if separates(s[at]) then Texts(s, first) + Split(s[at + 1..], s[at + 1..at + 1], separates)
               else Split(s[at + 1..], s[from..at + 1], separates)
  {
    var first := if from == at then [] else [Span(from, at)];
    assert Texts(s, first) == if s[from..at] == "" then [] else [s[from..at]];
    if at < |s| {
      assert s[at..][1..] == s[at + 1..] && s[at + 1..at + 1] == "";
      assert s[from..at + 1] == s[from..at] + [s[at]];
    }
  }

  /** At the end the only word left is the stretch read so far. */
  lemma WordsAtEnd(s: string, from: nat, separates: char -> bool)
    requires from <= |s| && (from > 0 ==> separates(s[from - 1]))
    requires forall k :: from <= k < |s| ==> !separates(s[k])
    ensures from < |s| ==> IsWord(s, Span(from, |s|), separates)
    ensures forall span :: IsWord(s, span, separates) && from <= span.from ==> from < |s| && span == Span(from, |s|)
  {
  }

  /** At a separator that stretch is a word, and every other word lies behind it. */
  lemma WordsAtSeparator(s: string, from: nat, at: nat, separates: char -> bool)
    requires from <= at < |s| && (from > 0 ==> separates(s[from - 1])) && separates(s[at])
    requires forall k :: from <= k < at ==> !separates(s[k])
    ensures from < at ==> IsWord(s, Span(from, at), separates)
    ensures forall span :: IsWord(s, span, separates) && from <= span.from ==>
              at < span.from || (from < at && span == Span(from, at))
  {
  }

  lemma JoinFinds(from: nat, at: nat, later: seq<Span>, word: Span -> bool)
    requires from <= at && (from < at ==> word(Span(from, at)))
    requires forall span :: word(span) && from <= span.from ==> at < span.from || (from < at && span == Span(from, at))
    requires Finds(later, at + 1, word)
    ensures Finds((if from == at then [] else [Span(from, at)]) + later, from, word)
  {
    var first := if from == at then [] else [Span(from, at)];
    var spans := first + later;
    forall span | word(span) && from <= span.from
      ensures span in spans
    {
      if at < span.from {
        assert span in later;
      } else {
        assert spans[0] == span;
      }
    }
  }

  lemma TextsAppend(s: string, a: seq<Span>, b: seq<Span>)
    requires Inside(s, a) && Inside(s, b)
    ensures Inside(s, a + b) && Texts(s, a + b) == Texts(s, a) + Texts(s, b)
  {
  }

  /** Splitting gives the maximal stretches without separators, all of them, from left to right. */
  lemma SplitIsWords(s: string, separates: char -> bool) returns (spans: seq<Span>)
    ensures AreWords(s, spans, separates)
    ensures Inside(s, spans)
    ensures Split(s, "", separates) == Texts(s, spans)
  {
    spans := SplitFinds(s, 0, 0, separates);
    assert s[0..] == s && s[0..0] == "";
  }
}
