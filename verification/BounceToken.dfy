/**
  The correlation header of outbound mail (bounce.rs): a rewriter for the
  top-level header block and a scanner for token lines anywhere in a message.
  A byte is a character below U+0100; nothing here depends on that bound.
 */
module BounceToken {
  import opened Ascii
  import opened Sequences
  import opened FoldedHeaders

  const TOKEN_HEADER: string := "X-CamelMailer-MsgID"
  const POSTAL_HEADER: string := "X-Postal-MsgID"
  const MAX_TOKEN: nat := 64

  // --------------------------------------------------------------- lines

  /** Length of the first line with its ending: through the first `\n`, or everything. */
  function LineLength(s: string): (n: nat)
    requires s != ""
    ensures 0 < n <= |s|
    ensures forall i :: 0 <= i < n - 1 ==> s[i] != '\n'
    ensures n < |s| ==> s[n - 1] == '\n'
  {
    if s[0] == '\n' || |s| == 1 then 1 else 1 + LineLength(s[1..])
  }

  /** A line without one trailing `\n` and then one trailing `\r`. */
  function Content(line: string): string {
    var l := if line != "" && line[|line| - 1] == '\n' then line[..|line| - 1] else line;
    if l != "" && l[|l| - 1] == '\r' then l[..|l| - 1] else l
  }

  function First(s: string): string
    requires s != ""
  {
    s[..LineLength(s)]
  }

  function Others(s: string): string
    requires s != ""
  {
    s[LineLength(s)..]
  }

  /** The lines before the first empty line. */
  function HeaderLines(s: string): seq<string>
    decreases |s|
  {
    if s == "" || Content(First(s)) == "" then [] else [First(s)] + HeaderLines(Others(s))
  }

  /** The message from its first empty line on. */
  function Body(s: string): string
    decreases |s|
  {
    if s == "" || Content(First(s)) == "" then s else Body(Others(s))
  }

  function Join(lines: seq<string>): string {
    if lines == [] then "" else lines[0] + Join(lines[1..])
  }

  /** At most one `\n`, at the end. */
  predicate OneLine(line: string) {
    forall k :: 0 <= k < |line| - 1 ==> line[k] != '\n'
  }

  predicate Ended(line: string) {
    line != "" && line[|line| - 1] == '\n'
  }

  /** Header lines that sit in front of `body` as they were cut from a message. */
  predicate Block(lines: seq<string>, body: string) {
    if lines == [] then body == "" || Content(First(body)) == ""
    else
      && Content(lines[0]) != "" && OneLine(lines[0])
      && (lines[1..] != [] || body != "" ==> Ended(lines[0]))
      && Block(lines[1..], body)
  }

  lemma FirstLine(s: string)
    requires s != ""
    ensures s == First(s) + Others(s) && First(s) != "" && OneLine(First(s)) && (Others(s) != "" ==> Ended(First(s)))
  {
  }

  lemma JoinCons(line: string, lines: seq<string>, body: string)
    ensures Join([line] + lines) + body == line + (Join(lines) + body)
    ensures Join([]) + body == body
  {
    assert ([line] + lines)[1..] == lines;
  }

  lemma {:induction false} SplitJoins(s: string)
    ensures s == Join(HeaderLines(s)) + Body(s)
    decreases |s|
  {
    if s == "" || Content(First(s)) == "" {
      JoinCons("", [], s);
    } else {
      SplitJoins(Others(s));
      FirstLine(s);
      JoinCons(First(s), HeaderLines(Others(s)), Body(Others(s)));
    }
  }

  lemma {:induction false} SplitBlocks(s: string)
    ensures Block(HeaderLines(s), Body(s))
    decreases |s|
  {
    if s != "" && Content(First(s)) != "" {
      SplitBlocks(Others(s));
      FirstLine(s);
      assert HeaderLines(s)[1..] == HeaderLines(Others(s));
    }
  }

  lemma LineLengthOf(line: string, rest: string)
    requires line != "" && OneLine(line) && (Ended(line) || rest == "")
    ensures First(line + rest) == line && Others(line + rest) == rest
  {
    var s := line + rest;
    assert forall k :: 0 <= k < |line| ==> s[k] == line[k];
    assert LineLength(s) == |line|;
  }

  lemma {:induction false} Unsplit(lines: seq<string>, body: string)
    requires Block(lines, body)
    ensures HeaderLines(Join(lines) + body) == lines && Body(Join(lines) + body) == body
  {
    if lines == [] {
      assert Join(lines) + body == body;
    } else {
      var rest := Join(lines[1..]) + body;
      Assoc(lines[0], Join(lines[1..]), body);
      HeadTail(lines);
      LineLengthOf(lines[0], rest);
      Unsplit(lines[1..], body);
    }
  }

  // ------------------------------------------------------------- headers

  predicate IsTokenHeader(name: string) {
    EqIgnoreCase(name, TOKEN_HEADER) || EqIgnoreCase(name, POSTAL_HEADER)
  }

  function ColonAt(line: string): (n: nat)
    ensures n <= |line| && ':' !in line[..n] && (n < |line| ==> line[n] == ':')
  {
    if line == "" || line[0] == ':' then 0 else
      var n := 1 + ColonAt(line[1..]);
      assert line[..n] == [line[0]] + line[1..][..n - 1];
      n
  }

  /** `line.split(':').next()`: the name, or the whole line when there is no colon. */
  function Name(line: string): string {
    line[..ColonAt(line)]
  }

  predicate Continuation(line: string) {
    Content(line) != "" && (Content(line)[0] == ' ' || Content(line)[0] == '\t')
  }

  /** A header starting with this line carries a message token. */
  predicate TokenLine(line: string) {
    IsTokenHeader(Name(Content(line)))
  }

  /** The header lines the rewriter keeps. */
  function KeptLines(lines: seq<string>): seq<string> {
    Kept(lines, false, Continuation, TokenLine)
  }

  function HeaderLine(token: string): string {
    TOKEN_HEADER + ": " + token + "\r\n"
  }

  /** What `add_message_token_header` returns. */
  function WithToken(raw: string, token: string): string {
    HeaderLine(token) + (Join(KeptLines(HeaderLines(raw))) + Body(raw))
  }

  // ---------------------------------------------------------- extraction

  predicate Whitespace(c: char) {
    c == ' ' || c == '\t' || c == '\n' || c == '\r' || c == 12 as char
  }

  function TrimStart(s: string): string {
    if s != "" && Whitespace(s[0]) then TrimStart(s[1..]) else s
  }

  function TrimEnd(s: string): string {
    if s != "" && Whitespace(s[|s| - 1]) then TrimEnd(s[..|s| - 1]) else s
  }

  function AlphanumericPrefix(s: string): string {
    if s != "" && Alphanumeric(s[0]) then [s[0]] + AlphanumericPrefix(s[1..]) else ""
  }

  predicate ValidToken(token: string) {
    0 < |token| <= MAX_TOKEN && forall c <- token :: Alphanumeric(c)
  }

  /** The token on one line, if it is a token header carrying one. */
  function TokenOf(line: string): seq<string> {
    var n := ColonAt(line);
    if n == |line| || !IsTokenHeader(line[..n]) then []
    else
      var token := AlphanumericPrefix(TrimEnd(TrimStart(line[n + 1..])));
      if token == "" || |token| > MAX_TOKEN then [] else [token]
  }

  /** What `read` finds on the lines of `s`, in order. */
  function Scan(s: string, read: string -> seq<string>): seq<string>
    decreases |s|
  {
    if s == "" then [] else read(Content(First(s))) + Scan(Others(s), read)
  }

  /** Every token in encounter order, repeats included. */
  function Tokens(s: string): seq<string> {
    Scan(s, TokenOf)
  }

  /** First occurrences only. */
  function Unique(found: seq<string>): seq<string> {
    if found == [] then []
    else
      var front := Unique(found[..|found| - 1]);
      if found[|found| - 1] in front then front else front + [found[|found| - 1]]
  }

  /** What `original_message_tokens` returns. */
  function OriginalTokens(s: string): seq<string> {
    Unique(Tokens(s))
  }

  function Without(found: seq<string>, token: string): seq<string> {
    if found == [] then []
    else Without(found[..|found| - 1], token) + (if found[|found| - 1] == token then [] else [found[|found| - 1]])
  }

  // ---------------------------------------------- what the rewriter keeps

  lemma {:induction false} KeptBlock(lines: seq<string>, body: string, skipping: bool)
    requires Block(lines, body)
    ensures Block(Kept(lines, skipping, Continuation, TokenLine), body)
    decreases lines
  {
    if lines != [] {
      var skip := Skips(lines[0], skipping, Continuation, TokenLine);
      KeptBlock(lines[1..], body, skip);
      BlockCons(lines, Kept(lines[1..], skip, Continuation, TokenLine), body);
      KeptMembers(lines[1..], skip, Continuation, TokenLine);
    }
  }

  lemma BlockCons(lines: seq<string>, kept: seq<string>, body: string)
    requires lines != [] && Block(lines, body) && Block(kept, body)
    ensures |kept| <= |lines[1..]| ==> Block([lines[0]] + kept, body)
  {
    assert ([lines[0]] + kept)[1..] == kept;
  }

  /** No kept line is a token line, whatever is folded under it. */
  lemma KeptCarryNoToken(lines: seq<string>)
    ensures forall l <- KeptLines(lines) :: TokenOf(Content(l)) == []
  {
    KeptMembers(lines, false, Continuation, TokenLine);
    forall l | l in KeptLines(lines)
      ensures TokenOf(Content(l)) == []
    {
      var c := Content(l);
      var n := ColonAt(c);
      if Continuation(l) && 0 < n {
        assert c[..n][0] == c[0];
      }
    }
  }

  lemma {:induction false} TokensOfBlock(lines: seq<string>, body: string)
    requires Block(lines, body) && forall l <- lines :: TokenOf(Content(l)) == []
    ensures Tokens(Join(lines) + body) == Tokens(body)
  {
    if lines == [] {
      JoinCons("", [], body);
    } else {
      var rest := Join(lines[1..]) + body;
      assert lines == [lines[0]] + lines[1..];
      JoinCons(lines[0], lines[1..], body);
      assert lines[0] in lines;
      LineLengthOf(lines[0], rest);
      TokensOfBlock(lines[1..], body);
      assert [] + Tokens(rest) == Tokens(rest);
    }
  }

  // -------------------------------------------------- the inserted header

  lemma {:induction false} AllAlphanumeric(token: string)
    requires forall c <- token :: Alphanumeric(c)
    ensures AlphanumericPrefix(token) == token
  {
    if token != "" {
      assert token[0] in token;
      AllAlphanumeric(token[1..]);
    }
  }

  lemma InsertedLine(token: string, rest: string)
    requires '\n' !in token
    ensures First(HeaderLine(token) + rest) == HeaderLine(token) && Others(HeaderLine(token) + rest) == rest
    ensures Content(HeaderLine(token)) == TOKEN_HEADER + ": " + token
  {
    var line := HeaderLine(token);
    assert OneLine(line) by {
      forall k | 0 <= k < |line| - 1
        ensures line[k] != '\n'
      {
        if |TOKEN_HEADER| + 2 <= k < |line| - 2 {
          assert line[k] == token[k - |TOKEN_HEADER| - 2];
        }
      }
    }
    assert line[|line| - 1] == '\n' && line[|line| - 2] == '\r';
    LineLengthOf(line, rest);
  }

  lemma InsertedName(token: string)
    ensures var c := TOKEN_HEADER + ": " + token;
            ColonAt(c) == |TOKEN_HEADER| && Name(c) == TOKEN_HEADER && c[|TOKEN_HEADER| + 1..] == " " + token
  {
    var c := TOKEN_HEADER + ": " + token;
    var n := ColonAt(c);
    assert c[|TOKEN_HEADER|] == ':';
    assert c[..|TOKEN_HEADER|] == TOKEN_HEADER;
    assert forall k :: 0 <= k < |TOKEN_HEADER| ==> c[k] == TOKEN_HEADER[k] && TOKEN_HEADER[k] != ':';
    assert forall k :: 0 <= k < n ==> c[..n][k] == c[k];
  }

  lemma InsertedValue(token: string)
    requires ValidToken(token)
    ensures TrimEnd(TrimStart(" " + token)) == token
  {
    assert (" " + token)[1..] == token;
    assert token[0] in token && token[|token| - 1] in token;
  }

  lemma InsertedToken(token: string)
    requires ValidToken(token)
    ensures TokenOf(TOKEN_HEADER + ": " + token) == [token]
  {
    InsertedName(token);
    InsertedValue(token);
    AllAlphanumeric(token);
  }

  // ------------------------------------------------------------- theorems

  /** The rewritten message carries the trusted token first and then exactly the body's tokens. */
  lemma TokensAfterInsertion(raw: string, token: string)
    requires ValidToken(token)
    ensures Tokens(WithToken(raw, token)) == [token] + Tokens(Body(raw))
  {
    var kept := KeptLines(HeaderLines(raw));
    var rest := Join(kept) + Body(raw);
    InsertedLine(token, rest);
    InsertedToken(token);
    SplitBlocks(raw);
    KeptBlock(HeaderLines(raw), Body(raw), false);
    KeptCarryNoToken(HeaderLines(raw));
    TokensOfBlock(kept, Body(raw));
  }

  lemma {:induction false} UniqueCons(token: string, found: seq<string>)
    ensures Unique([token] + found) == [token] + Without(Unique(found), token)
  {
    if found == [] {
      assert [token] + found == [token];
      assert [token][..0] == [];
      assert Unique([token][..0]) == [];
    } else {
      var front, last := found[..|found| - 1], found[|found| - 1];
      var all := [token] + found;
      assert all[..|all| - 1] == [token] + front && all[|all| - 1] == last;
      UniqueCons(token, front);
      WithoutMember(Unique(front), token, last);
      if last !in Unique(front) {
        assert (Unique(front) + [last])[..|Unique(front)|] == Unique(front);
      }
    }
  }

  lemma {:induction false} WithoutMember(found: seq<string>, token: string, x: string)
    ensures x in Without(found, token) <==> x in found && x != token
  {
    if found != [] {
      WithoutMember(found[..|found| - 1], token, x);
      assert found == found[..|found| - 1] + [found[|found| - 1]];
    }
  }

  /**
    Extraction from the rewritten message gives the trusted token, then the
    deduplicated tokens found from the first empty line on. No header that was
    in the message contributes, and the bytes from that line on are unchanged.
   */
  lemma TrustedExtraction(raw: string, token: string)
    requires ValidToken(token)
    ensures OriginalTokens(WithToken(raw, token)) == [token] + Without(OriginalTokens(Body(raw)), token)
    ensures Body(WithToken(raw, token)) == Body(raw)
  {
    TokensAfterInsertion(raw, token);
    UniqueCons(token, Tokens(Body(raw)));
    assert '\n' !in token;
    RewrittenParts(raw, token);
  }

  /** The rewritten message, cut into lines again. */
  lemma RewrittenParts(raw: string, token: string)
    requires '\n' !in token
    ensures HeaderLines(WithToken(raw, token)) == [HeaderLine(token)] + KeptLines(HeaderLines(raw))
    ensures Body(WithToken(raw, token)) == Body(raw)
  {
    var kept := KeptLines(HeaderLines(raw));
    InsertedLine(token, Join(kept) + Body(raw));
    SplitBlocks(raw);
    KeptBlock(HeaderLines(raw), Body(raw), false);
    Unsplit(kept, Body(raw));
    assert (TOKEN_HEADER + ": " + token)[0] == 'X';
  }

  // ---------------------------------------------------------- replacement

  lemma StartsFoldedRaw(raw: string)
    ensures StartsFolded(HeaderLines(raw), Continuation) <==> raw != "" && (raw[0] == ' ' || raw[0] == '\t')
  {
    if raw != "" {
      FirstChar(raw);
      if Content(First(raw)) == "" {
        EmptyLine(First(raw));
      }
    }
  }

  lemma FirstChar(s: string)
    requires s != ""
    ensures First(s) != "" && First(s)[0] == s[0]
  {
  }

  lemma EmptyLine(line: string)
    requires line != "" && Content(line) == ""
    ensures line[0] == '\n' || line[0] == '\r'
  {
  }

  /** Inserting one token after another leaves only the second, unless the message starts with a folded line. */
  lemma Replacement(raw: string, a: string, b: string)
    requires '\n' !in a && '\n' !in b
    ensures WithToken(WithToken(raw, a), b) == WithToken(raw, b)
            <==> !(raw != "" && (raw[0] == ' ' || raw[0] == '\t'))
  {
    var lines := HeaderLines(raw);
    var kept := KeptLines(lines);
    RewrittenParts(raw, a);
    RewrittenParts(raw, b);
    RewrittenParts(WithToken(raw, a), b);
    InsertedIsDropped(a);
    assert ([HeaderLine(a)] + kept)[1..] == kept;
    assert KeptLines([HeaderLine(a)] + kept) == Kept(kept, true, Continuation, TokenLine);
    KeptIdempotent(lines, false, Continuation, TokenLine);
    KeptSkipping(kept, Continuation, TokenLine);
    KeptFirst(lines, Continuation, TokenLine);
    StartsFoldedRaw(raw);
    assert HeaderLines(WithToken(WithToken(raw, a), b))[1..] == Kept(kept, true, Continuation, TokenLine);
    assert HeaderLines(WithToken(raw, b))[1..] == kept;
  }

  lemma InsertedIsDropped(token: string)
    requires '\n' !in token
    ensures !Continuation(HeaderLine(token)) && TokenLine(HeaderLine(token))
  {
    InsertedLine(token, "");
    InsertedName(token);
    assert (TOKEN_HEADER + ": " + token)[0] == 'X';
  }

  /** What stays of the header block is a selection of whole folded headers, in order. */
  lemma KeptAreWholeHeaders(raw: string, token: string)
    ensures var headers := Headers(HeaderLines(raw), Continuation);
            && raw == Join(Flatten(headers)) + Body(raw)
            && WithToken(raw, token)
               == HeaderLine(token) + (Join(Flatten(Selected(headers, Continuation, TokenLine))) + Body(raw))
  {
    SplitJoins(raw);
    HeadersPartition(HeaderLines(raw), Continuation);
    KeptWholeHeaders(HeaderLines(raw), Continuation, TokenLine);
  }
}
