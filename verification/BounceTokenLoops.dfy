/** The loops of bounce.rs, proved to compute the functions of `BounceToken`. */
module BounceTokenLoops {
  import opened Sequences
  import opened FoldedHeaders
  import opened BounceToken

  /** What the rewriter still has to append from here on. */
  function Pending(rest: string, skipping: bool): string {
    Join(Kept(HeaderLines(rest), skipping, Continuation, TokenLine)) + Body(rest)
  }

  lemma PendingStep(output: string, rest: string, skipping: bool)
    requires rest != ""
    ensures Content(First(rest)) == "" ==> Pending(rest, skipping) == rest
    ensures Content(First(rest)) != "" ==>
              var skip := Skips(First(rest), skipping, Continuation, TokenLine);
              output + Pending(rest, skipping)
              == output + (if skip then "" else First(rest)) + Pending(Others(rest), skip)
  {
    if Content(First(rest)) == "" {
      JoinCons("", [], rest);
    } else {
      var skip := Skips(First(rest), skipping, Continuation, TokenLine);
      HeaderStep(rest);
      KeptCons(First(rest), HeaderLines(Others(rest)), skipping, Continuation, TokenLine);
      JoinCons(First(rest), Kept(HeaderLines(Others(rest)), skip, Continuation, TokenLine), Body(rest));
      Assoc(output, if skip then "" else First(rest), Pending(Others(rest), skip));
      EmptyLeft(Pending(Others(rest), skip));
    }
  }

  lemma HeaderStep(rest: string)
    requires rest != "" && Content(First(rest)) != ""
    ensures HeaderLines(rest) == [First(rest)] + HeaderLines(Others(rest)) && Body(rest) == Body(Others(rest))
  {
  }

  /** The line that starts at `position`, and where the next one does. */
  function NextStart(raw: string, position: nat): (next: nat)
    requires position < |raw|
    ensures position < next <= |raw|
  {
    position + LineLength(raw[position..])
  }

  function LineAt(raw: string, position: nat): string
    requires position < |raw|
  {
    Content(raw[position..NextStart(raw, position)])
  }

  lemma LineCuts(raw: string, position: nat)
    requires position < |raw|
    ensures var next := NextStart(raw, position);
            raw[position..next] == First(raw[position..]) && raw[next..] == Others(raw[position..])
  {
  }

  /** One turn of the rewriter's loop on a header line. */
  method RewriteLine(before: string, raw: string, position: nat, skipping: bool)
    returns (output: string, skip: bool)
    requires position < |raw| && LineAt(raw, position) != ""
    ensures output + Pending(raw[NextStart(raw, position)..], skip) == before + Pending(raw[position..], skipping)
  {
    var line := LineAt(raw, position);
    LineCuts(raw, position);
    PendingStep(before, raw[position..], skipping);
    skip := skipping;
    if !(line[0] == ' ' || line[0] == '\t') {
      skip := IsTokenHeader(Name(line));
    }
    output := before;
    if !skip {
      output := output + raw[position..NextStart(raw, position)];
    }
  }

  /** `add_message_token_header`. */
  method AddMessageTokenHeader(raw: string, token: string) returns (output: string)
    ensures output == WithToken(raw, token)
  {
    output := TOKEN_HEADER + ": " + token + "\r\n";
    var position, skipping := 0, false;
    assert raw[0..] == raw;
    while position < |raw|
      invariant position <= |raw|
      invariant output + Pending(raw[position..], skipping) == WithToken(raw, token)
    {
      if LineAt(raw, position) == "" {
        LineCuts(raw, position);
        PendingStep(output, raw[position..], skipping);
        output := output + raw[position..];
        return;
      }
      output, skipping := RewriteLine(output, raw, position, skipping);
      position := NextStart(raw, position);
    }
    assert raw[position..] == "";
  }

  /** `trim_ascii`. */
  method TrimAscii(value: string) returns (trimmed: string)
    ensures trimmed == TrimEnd(TrimStart(value))
  {
    trimmed := value;
    while trimmed != "" && Whitespace(trimmed[0])
      invariant TrimStart(trimmed) == TrimStart(value)
      decreases |trimmed|
    {
      trimmed := trimmed[1..];
    }
    while trimmed != "" && Whitespace(trimmed[|trimmed| - 1])
      invariant TrimEnd(trimmed) == TrimEnd(TrimStart(value))
      decreases |trimmed|
    {
      trimmed := trimmed[..|trimmed| - 1];
    }
  }

  /** The body of the scanner's loop up to the `continue`s. */
  method ScanLine(line: string) returns (found: seq<string>)
    ensures found == TokenOf(line)
  {
    var separator := ColonAt(line);
    if separator == |line| || !IsTokenHeader(line[..separator]) {
      return [];
    }
    var value := TrimAscii(line[separator + 1..]);
    var token := AlphanumericPrefix(value);
    if token == "" || |token| > MAX_TOKEN {
      return [];
    }
    return [token];
  }

  lemma UniqueAppend(seen: seq<string>, token: string)
    ensures Unique(seen + [token]) == if token in Unique(seen) then Unique(seen) else Unique(seen) + [token]
  {
    assert (seen + [token])[..|seen|] == seen;
  }

  /** Push the line's token unless it is already there. */
  method Visit(tokens: seq<string>, line: string, ghost seen: seq<string>) returns (after: seq<string>)
    requires tokens == Unique(seen)
    ensures after == Unique(seen + TokenOf(line))
  {
    after := tokens;
    var found := ScanLine(line);
    if found == [] {
      assert seen + found == seen;
    } else {
      UniqueAppend(seen, found[0]);
      assert found == [found[0]];
      if found[0] !in tokens {
        after := tokens + [found[0]];
      }
    }
  }

  /** Everything there is to find, given what was found so far and the unread rest. */
  ghost predicate Scanned(seen: seq<string>, raw: string, position: nat, read: string -> seq<string>) {
    position <= |raw| && seen + Scan(raw[position..], read) == Scan(raw, read)
  }

  lemma ScanStart(raw: string, read: string -> seq<string>)
    ensures Scanned([], raw, 0, read)
  {
    assert raw[0..] == raw;
  }

  lemma ScanStep(seen: seq<string>, raw: string, position: nat, read: string -> seq<string>)
    requires Scanned(seen, raw, position, read) && position < |raw|
    ensures Scanned(seen + read(LineAt(raw, position)), raw, NextStart(raw, position), read)
  {
    var rest := raw[position..];
    var next := NextStart(raw, position);
    assert raw[position..next] == First(rest) && raw[next..] == Others(rest);
    Assoc(seen, read(Content(First(rest))), Scan(Others(rest), read));
  }

  lemma ScanEnd(seen: seq<string>, raw: string, read: string -> seq<string>)
    requires Scanned(seen, raw, |raw|, read)
    ensures seen == Scan(raw, read)
  {
  }

  /** One turn of the scanner's loop; `scanned` is whatever the line read leads to. */
  method ScanTurn(raw: string, position: nat, tokens: seq<string>, ghost seen: seq<string>,
                  ghost scanned: (seq<string>, nat) -> bool)
    returns (after: seq<string>, next: nat, ghost seenAfter: seq<string>)
    requires position < |raw| && tokens == Unique(seen)
    requires scanned(seen + TokenOf(LineAt(raw, position)), NextStart(raw, position))
    ensures position < next <= |raw| && scanned(seenAfter, next) && after == Unique(seenAfter)
  {
    next := NextStart(raw, position);
    var line := LineAt(raw, position);
    after := Visit(tokens, line, seen);
    seenAfter := seen + TokenOf(line);
  }

  /** `original_message_tokens`; the empty piece after a final newline holds no token and is not visited. */
  method OriginalMessageTokens(raw: string) returns (tokens: seq<string>)
    ensures tokens == OriginalTokens(raw)
  {
    tokens := [];
    var position := 0;
    ghost var seen: seq<string> := [];
    ScanStart(raw, TokenOf);
    while position < |raw|
      invariant Scanned(seen, raw, position, TokenOf)
      invariant tokens == Unique(seen)
    {
      ScanStep(seen, raw, position, TokenOf);
      tokens, position, seen := ScanTurn(raw, position, tokens, seen,
                                         (s: seq<string>, p: nat) => Scanned(s, raw, p, TokenOf));
    }
    ScanEnd(seen, raw, TokenOf);
  }
}
