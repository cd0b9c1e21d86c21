/**
  Where the header block of a message ends, what a token line is and which tokens a
  message holds, stated position by position on the bytes.
 */
module BounceExact {
  import opened Ascii
  import opened Sequences
  import opened FoldedHeaders
  import opened BounceToken

  // ------------------------------------------------------------ header end

  predicate LineStart(s: string, i: nat) {
    i < |s| && (i == 0 || s[i - 1] == '\n')
  }

  /** The line at `i` is empty but for its ending. */
  predicate EmptyLineAt(s: string, i: nat) {
    i < |s| && (s[i] == '\n' || (s[i] == '\r' && (i + 1 == |s| || s[i + 1] == '\n')))
  }

  lemma EmptyFirstLine(s: string)
    requires s != ""
    ensures Content(First(s)) == "" <==> EmptyLineAt(s, 0)
  {
    var n := LineLength(s);
    assert n == 1 || (s[0] != '\n' && (n == 2 || s[1] != '\n'));
  }

  /** The headers end at the first empty line, or at the end of the message. */
  lemma {:induction false} BodyStarts(s: string) returns (h: nat)
    ensures h <= |s| && s[h..] == Body(s)
    ensures h == |s| || (LineStart(s, h) && EmptyLineAt(s, h))
    ensures forall i :: 0 <= i < h && LineStart(s, i) ==> !EmptyLineAt(s, i)
    decreases |s|
  {
    if s == "" {
      h := 0;
    } else {
      EmptyFirstLine(s);
      if Content(First(s)) == "" {
        h := 0;
      } else {
        var n := LineLength(s);
        var later := BodyStarts(Others(s));
        h := n + later;
        Shift(s, n);
        assert s[h..] == s[n..][later..];
        forall i | 0 <= i < h && LineStart(s, i)
          ensures !EmptyLineAt(s, i)
        {
          if i >= n {
            assert LineStart(s[n..], i - n) && !EmptyLineAt(s[n..], i - n);
          }
        }
      }
    }
  }

  /** Positions in the rest of a message after a whole line. */
  lemma Shift(s: string, n: nat)
    requires 0 < n <= |s| && (n < |s| ==> s[n - 1] == '\n')
    ensures forall i :: n <= i <= |s| ==>
              (LineStart(s, i) <==> LineStart(s[n..], i - n)) && (EmptyLineAt(s, i) <==> EmptyLineAt(s[n..], i - n))
  {
    forall i | n <= i <= |s|
      ensures (LineStart(s, i) <==> LineStart(s[n..], i - n)) && (EmptyLineAt(s, i) <==> EmptyLineAt(s[n..], i - n))
    {
      assert i < |s| ==> s[n..][i - n] == s[i];
      assert n < i <= |s| ==> s[n..][i - n - 1] == s[i - 1];
      assert i + 1 < |s| ==> s[n..][i - n + 1] == s[i + 1];
    }
  }

  // ----------------------------------------------------------- header lines

  /** A line is folded under the one before it when it starts with a space or tab. */
  lemma FoldedLines(line: string)
    ensures Continuation(line) <==> line != "" && (line[0] == ' ' || line[0] == '\t')
  {
    if line != "" && (line[0] == ' ' || line[0] == '\t') {
      assert Content(line) != "" && Content(line)[0] == line[0];
    }
    if Continuation(line) {
      assert Content(line)[0] == line[0];
    }
  }

  /** The text of a line before its first colon, all of it without one. */
  predicate IsName(line: string, name: string) {
    && name <= line && ':' !in name && (|name| < |line| ==> line[|name|] == ':')
  }

  /** The dropped headers are those of the two token names, in any case. */
  lemma DroppedNames(line: string, name: string)
    requires IsName(Content(line), name)
    ensures TokenLine(line) <==> EqIgnoreCase(name, "X-CamelMailer-MsgID") || EqIgnoreCase(name, "X-Postal-MsgID")
  {
    SameColon(Content(line), name);
  }

  lemma SameColon(line: string, name: string)
    requires IsName(line, name)
    ensures ColonAt(line) == |name| && Name(line) == name
  {
    assert line[..|name|] == name;
    FirstColon(line, ColonAt(line), |name|);
  }

  /** There is one first colon, or none. */
  lemma FirstColon(line: string, a: nat, b: nat)
    requires a <= |line| && b <= |line| && ':' !in line[..a] && ':' !in line[..b]
    requires (a < |line| ==> line[a] == ':') && (b < |line| ==> line[b] == ':')
    ensures a == b
  {
    assert forall k :: 0 <= k < a ==> line[..a][k] == line[k];
    assert forall k :: 0 <= k < b ==> line[..b][k] == line[k];
  }

  /** Headers are a first line and the lines folded under it; only the first header may start folded. */
  lemma {:induction false} HeadersFolded<T>(lines: seq<T>, folds: T -> bool, h: nat, k: nat)
    requires h < |Headers(lines, folds)|
    ensures Headers(lines, folds)[h] != []
    ensures 0 < k < |Headers(lines, folds)[h]| ==> folds(Headers(lines, folds)[h][k])
    ensures h > 0 ==> !folds(Headers(lines, folds)[h][0])
    decreases |lines|
  {
    var n := 1 + Folded(lines[1..], folds);
    FirstHeader(lines, folds, k);
    if h > 0 {
      HeadersFolded(lines[n..], folds, h - 1, k);
      assert Headers(lines, folds)[h] == Headers(lines[n..], folds)[h - 1];
      FirstHeader(lines[n..], folds, k);
    }
  }

  lemma FirstHeader<T>(lines: seq<T>, folds: T -> bool, k: nat)
    requires lines != []
    ensures var n := 1 + Folded(lines[1..], folds);
            && n <= |lines| && Headers(lines, folds)[0] == lines[..n] && (n < |lines| ==> !folds(lines[n]))
            && (0 < k < n ==> folds(lines[k]))
  {
    var n := 1 + Folded(lines[1..], folds);
    FoldedStretch(lines[1..], folds);
    HeaderCut(lines, folds);
    if 0 < k < n {
      assert lines[k] == lines[1..][k - 1];
    }
    if n < |lines| {
      assert lines[n] == lines[1..][n - 1];
    }
  }

  lemma HeaderCut<T>(lines: seq<T>, folds: T -> bool)
    requires lines != []
    ensures var n := 1 + Folded(lines[1..], folds);
            n <= |lines| && Headers(lines, folds) != [] && Headers(lines, folds)[0] == lines[..n]
  {
    HeadOf(lines[..1 + Folded(lines[1..], folds)], Headers(lines[1 + Folded(lines[1..], folds)..], folds));
  }

  lemma HeadOf<T>(first: T, rest: seq<T>)
    ensures ([first] + rest)[0] == first && [first] + rest != []
  {
  }

  lemma {:induction false} FoldedStretch<T>(lines: seq<T>, folds: T -> bool)
    ensures forall k :: 0 <= k < Folded(lines, folds) ==> folds(lines[k])
    ensures Folded(lines, folds) < |lines| ==> !folds(lines[Folded(lines, folds)])
  {
    if lines != [] && folds(lines[0]) {
      FoldedStretch(lines[1..], folds);
      forall k | 0 <= k < Folded(lines, folds)
        ensures folds(lines[k])
      {
        assert k > 0 ==> lines[k] == lines[1..][k - 1];
      }
    }
  }

  /** The rewritten message starts with the trusted header on a line of its own. */
  lemma StartsWithHeader(raw: string, token: string)
    ensures "X-CamelMailer-MsgID: " + token + "\r\n" <= WithToken(raw, token)
  {
    assert TOKEN_HEADER + ": " == "X-CamelMailer-MsgID: ";
  }

  // ------------------------------------------------------------ token lines

  /**
    A token line: one of the two names up to the first colon, white space, and then
    from `from` on the token, one to sixty-four letters and digits and no more.
   */
  predicate Carries(line: string, token: string, colon: nat, from: nat) {
    && colon < from && from + |token| <= |line| && line[colon] == ':' && ':' !in line[..colon]
    && (EqIgnoreCase(line[..colon], "X-CamelMailer-MsgID") || EqIgnoreCase(line[..colon], "X-Postal-MsgID"))
    && (forall k :: colon < k < from ==> Whitespace(line[k]))
    && 0 < |token| <= 64 && (forall c <- token :: Alphanumeric(c))
    && line[from..from + |token|] == token && (from + |token| < |line| ==> !Alphanumeric(line[from + |token|]))
  }

  ghost predicate HoldsToken(line: string, token: string) {
    exists colon: nat, from: nat :: Carries(line, token, colon, from)
  }

  /** A line holds at most one token, and holds exactly what it carries. */
  lemma TokenExactly(line: string, token: string)
    ensures |TokenOf(line)| <= 1
    ensures TokenOf(line) == [token] <==> HoldsToken(line, token)
  {
    if TokenOf(line) == [token] {
      TokenCarried(line, token);
    }
    if HoldsToken(line, token) {
      var colon: nat, from: nat :| Carries(line, token, colon, from);
      CarriedToken(line, token, colon, from);
    }
  }

  lemma TokenCarried(line: string, token: string)
    requires TokenOf(line) == [token]
    ensures HoldsToken(line, token)
  {
    var n := ColonAt(line);
    var value := line[n + 1..];
    var from := TokenIn(value);
    Offset(line, n + 1, from, |token|);
    assert forall k :: n < k < n + 1 + from ==> line[k] == value[k - n - 1];
    assert Carries(line, token, n, n + 1 + from);
  }

  lemma Offset(s: string, a: nat, b: nat, n: nat)
    requires a <= |s| && b + n <= |s[a..]|
    ensures s[a + b..a + b + n] == s[a..][b..b + n]
    ensures a + b + n < |s| ==> s[a + b + n] == s[a..][b + n]
  {
  }

  lemma CarriedToken(line: string, token: string, colon: nat, from: nat)
    requires Carries(line, token, colon, from)
    ensures TokenOf(line) == [token]
  {
    SameColon(line, line[..colon]);
    Offset(line, colon + 1, from - colon - 1, |token|);
    CarriedIn(line[colon + 1..], token, from - colon - 1);
  }

  /** The letters and digits at the front of the trimmed value, in place. */
  lemma TokenIn(value: string) returns (from: nat)
    ensures var token := AlphanumericPrefix(TrimEnd(TrimStart(value)));
            && from + |token| <= |value| && value[from..from + |token|] == token
            && (forall c <- token :: Alphanumeric(c))
            && (forall k :: 0 <= k < from ==> Whitespace(value[k]))
            && (from + |token| < |value| ==> !Alphanumeric(value[from + |token|]))
  {
    from := LeadingSpace(value);
    var rest := value[from..];
    PrefixIgnoresEnd(rest);
    var token := AlphanumericPrefix(rest);
    PrefixIs(rest);
    assert value[from..from + |token|] == rest[..|token|];
    assert from + |token| < |value| ==> value[from + |token|] == rest[|token|];
  }

  lemma {:induction false} LeadingSpace(value: string) returns (n: nat)
    ensures n <= |value| && TrimStart(value) == value[n..]
    ensures forall k :: 0 <= k < n ==> Whitespace(value[k])
    ensures n < |value| ==> !Whitespace(value[n])
  {
    if value != "" && Whitespace(value[0]) {
      var m := LeadingSpace(value[1..]);
      n := m + 1;
      assert value[1..][m..] == value[n..];
      assert forall k :: 0 < k < n ==> value[k] == value[1..][k - 1];
    } else {
      n := 0;
    }
  }

  lemma {:induction false} PrefixIs(s: string)
    ensures var p := AlphanumericPrefix(s);
            && p <= s && (forall c <- p :: Alphanumeric(c)) && (|p| < |s| ==> !Alphanumeric(s[|p|]))
  {
    if s != "" && Alphanumeric(s[0]) {
      PrefixIs(s[1..]);
      assert s == [s[0]] + s[1..];
    }
  }

  /** A stretch of letters and digits at the front, not continued, is that prefix. */
  lemma {:induction false} PrefixUnique(s: string, p: string)
    requires p <= s && (forall c <- p :: Alphanumeric(c)) && (|p| < |s| ==> !Alphanumeric(s[|p|]))
    ensures AlphanumericPrefix(s) == p
  {
    if p != "" {
      assert p[0] in p && s[0] == p[0] && forall c :: c in p[1..] ==> c in p;
      PrefixUnique(s[1..], p[1..]);
      assert p == [p[0]] + p[1..];
    }
  }

  lemma {:induction false} PrefixIgnoresEnd(s: string)
    ensures AlphanumericPrefix(TrimEnd(s)) == AlphanumericPrefix(s)
  {
    if s != "" && Whitespace(s[|s| - 1]) {
      var front := s[..|s| - 1];
      PrefixIgnoresEnd(front);
      PrefixIs(front);
      PrefixUnique(s, AlphanumericPrefix(front));
    }
  }

  /** Trimming stops at the first character that is not white space. */
  lemma SpaceBefore(value: string, from: nat)
    requires from < |value| && !Whitespace(value[from]) && forall k :: 0 <= k < from ==> Whitespace(value[k])
    ensures TrimStart(value) == value[from..]
  {
    var n := LeadingSpace(value);
    assert n == from;
  }

  lemma CarriedIn(value: string, token: string, from: nat)
    requires from + |token| <= |value| && value[from..from + |token|] == token && token != ""
    requires (forall c <- token :: Alphanumeric(c)) && forall k :: 0 <= k < from ==> Whitespace(value[k])
    requires from + |token| < |value| ==> !Alphanumeric(value[from + |token|])
    ensures AlphanumericPrefix(TrimEnd(TrimStart(value))) == token
  {
    var rest := value[from..];
    assert token[0] in token && value[from] == value[from..from + |token|][0] == token[0];
    SpaceBefore(value, from);
    assert rest[..|token|] == token;
    PrefixUnique(rest, token);
    PrefixIgnoresEnd(rest);
  }

  // ------------------------------------------------------------ all tokens

  /** A line without its ending: what stands before `\n`, less one `\r`. */
  lemma LineContent(text: string)
    requires '\n' !in text
    ensures Content(text + "\n") == Content(text)
    ensures Content(text) == if text != "" && text[|text| - 1] == '\r' then text[..|text| - 1] else text
  {
    assert (text + "\n")[..|text|] == text && (text + "\n")[|text|] == '\n';
    if text != "" {
      assert text[|text| - 1] in text;
    }
  }

  /** The tokens of a single line. */
  lemma OneLineTokens(text: string, ended: bool)
    requires '\n' !in text && (text != "" || ended)
    ensures Tokens(if ended then text + "\n" else text) == TokenOf(Content(text))
  {
    var s := if ended then text + "\n" else text;
    LineContent(text);
    assert forall k :: 0 <= k < |text| ==> s[k] == text[k] && text[k] in text;
    WholeLine(s);
  }

  lemma WholeLine(s: string)
    requires s != "" && OneLine(s)
    ensures Tokens(s) == TokenOf(Content(s))
  {
    assert s + "" == s;
    LineLengthOf(s, "");
    assert First(s) == s && Others(s) == "" && Scan("", TokenOf) == [];
    assert TokenOf(Content(s)) + [] == TokenOf(Content(s));
  }

  /** Whole lines in front contribute their tokens in front. */
  lemma {:induction false} TokensOfLines(a: string, b: string)
    requires a == "" || a[|a| - 1] == '\n'
    ensures Tokens(a + b) == Tokens(a) + Tokens(b)
    decreases |a|
  {
    if a == "" {
      EmptyLeft(b);
      EmptyLeft(Tokens(b));
    } else {
      FirstLine(a);
      var line, rest := First(a), Others(a);
      assert line[|line| - 1] == '\n' by {
        assert rest == "" ==> line == a;
      }
      assert rest != "" ==> rest[|rest| - 1] == a[|a| - 1];
      Assoc(line, rest, b);
      LineLengthOf(line, rest + b);
      TokensOfLines(rest, b);
      Assoc(TokenOf(Content(line)), Tokens(rest), Tokens(b));
    }
  }

  /** First occurrences, each once and in order. */
  lemma {:induction false} UniqueExactly(found: seq<string>)
    ensures forall t :: t in Unique(found) <==> t in found
    ensures forall i, j :: 0 <= i < j < |Unique(found)| ==> Unique(found)[i] != Unique(found)[j]
    ensures forall i, j, k :: 0 <= i < j < |Unique(found)| && 0 <= k < |found| && found[k] == Unique(found)[j] ==>
              Unique(found)[i] in found[..k]
  {
    if found != [] {
      var front, last := found[..|found| - 1], found[|found| - 1];
      UniqueExactly(front);
      assert found == front + [last];
      var before := Unique(front);
      forall i, j, k | 0 <= i < j < |Unique(found)| && 0 <= k < |found| && found[k] == Unique(found)[j]
        ensures Unique(found)[i] in found[..k]
      {
        assert k < |front| ==> found[k] == front[k] && front[k] in front && front[..k] == found[..k];
        assert k == |front| ==> found[..k] == front;
        assert Unique(found)[i] in before;
      }
    }
  }
}
