/**
  `permalink_from` (app.rs): lower-case, turn everything outside [a-z0-9] into a
  dash, and join the non-empty parts between dashes by single dashes. Unicode
  lower-casing is a parameter; all that matters is that it fixes slug characters.
 */
module Slug {
  import opened Ascii
  import Splitting
  type Lowercase = string -> string

  predicate SlugChar(c: char) {
    'a' <= c <= 'z' || '0' <= c <= '9'
  }

  /** What lower-casing promises: no ASCII capital is left, and slug text is left alone. */
  ghost predicate IsLowercase(lower: Lowercase) {
    && (forall s: string, c :: c in lower(s) ==> !('A' <= c <= 'Z'))
    && (forall s: string :: (forall c <- s :: SlugChar(c) || c == '-') ==> lower(s) == s)
  }

  function Dashed(s: string): string {
    if s == "" then "" else [if Alphanumeric(s[0]) then s[0] else '-'] + Dashed(s[1..])
  }

  /** `split('-')`: the parts between dashes, empty ones included. */
  function Split(s: string): (parts: seq<string>)
    ensures parts != []
  {
    if s == "" then [""]
    else
      var rest := Split(s[1..]);
      if s[0] == '-' then [""] + rest else [[s[0]] + rest[0]] + rest[1..]
  }

  function NonEmpty(parts: seq<string>): seq<string> {
    if parts == [] then []
    else if parts[0] == "" then NonEmpty(parts[1..])
    else [parts[0]] + NonEmpty(parts[1..])
  }

  function Join(parts: seq<string>): string {
    if parts == [] then ""
    else if |parts| == 1 then parts[0]
    else parts[0] + "-" + Join(parts[1..])
  }

  function PermalinkFrom(name: string, lower: Lowercase): string {
    Join(NonEmpty(Split(Dashed(lower(name)))))
  }

  // ------------------------------------------------------------ normal form

  predicate Part(p: string) {
    p != "" && forall c <- p :: SlugChar(c)
  }

  predicate Parts(parts: seq<string>) {
    forall p <- parts :: Part(p)
  }

  /** Runs of [a-z0-9] joined by single dashes, none leading or trailing. */
  ghost predicate NormalForm(s: string) {
    exists parts :: Parts(parts) && s == Join(parts)
  }

  lemma {:induction false} DashedChars(s: string)
    requires forall c <- s :: !('A' <= c <= 'Z')
    ensures forall c <- Dashed(s) :: SlugChar(c) || c == '-'
  {
    if s != "" {
      assert s[0] in s;
      assert forall c :: c in s[1..] ==> c in s;
      DashedChars(s[1..]);
    }
  }

  lemma {:induction false} SplitChars(s: string)
    requires forall c <- s :: SlugChar(c) || c == '-'
    ensures forall p <- Split(s) :: forall c <- p :: SlugChar(c)
  {
    if s != "" {
      assert s[0] in s;
      assert forall c :: c in s[1..] ==> c in s;
      SplitChars(s[1..]);
      var rest := Split(s[1..]);
      assert rest[0] in rest;
      assert forall p :: p in rest[1..] ==> p in rest;
    }
  }

  lemma {:induction false} NonEmptyParts(parts: seq<string>)
    requires forall p <- parts :: forall c <- p :: SlugChar(c)
    ensures Parts(NonEmpty(parts))
  {
    if parts != [] {
      assert parts[0] in parts;
      assert forall p :: p in parts[1..] ==> p in parts;
      NonEmptyParts(parts[1..]);
    }
  }

  lemma Permalinks(name: string, lower: Lowercase)
    requires IsLowercase(lower)
    ensures Parts(NonEmpty(Split(Dashed(lower(name)))))
    ensures NormalForm(PermalinkFrom(name, lower))
  {
    var dashed := Dashed(lower(name));
    DashedChars(lower(name));
    SplitChars(dashed);
    NonEmptyParts(Split(dashed));
  }

  // ---------------------------------------------------------- splitting back

  lemma {:induction false} SplitPart(p: string, rest: string)
    requires '-' !in p
    ensures Split(p + "-" + rest) == [p] + Split(rest)
    ensures Split(p) == [p]
  {
    if p == "" {
      assert p + "-" + rest == "-" + rest;
      assert ("-" + rest)[1..] == rest;
    } else {
      var tail := p[1..];
      assert '-' !in tail && p[0] != '-';
      SplitPart(tail, rest);
      assert (p + "-" + rest)[1..] == tail + "-" + rest;
      assert p == [p[0]] + tail;
      assert ([tail] + Split(rest))[1..] == Split(rest);
    }
  }

  /** Splitting a slug on dashes gives its parts back. */
  lemma {:induction false} SplitJoin(parts: seq<string>)
    requires Parts(parts) && parts != []
    ensures Split(Join(parts)) == parts
  {
    assert parts[0] in parts && Part(parts[0]);
    assert '-' !in parts[0];
    SplitPart(parts[0], if |parts| == 1 then "" else Join(parts[1..]));
    if |parts| > 1 {
      assert forall p :: p in parts[1..] ==> p in parts;
      SplitJoin(parts[1..]);
    }
  }

  lemma {:induction false} NonEmptyKeeps(parts: seq<string>)
    requires Parts(parts)
    ensures NonEmpty(parts) == parts
  {
    if parts != [] {
      assert parts[0] in parts;
      assert forall p :: p in parts[1..] ==> p in parts;
      NonEmptyKeeps(parts[1..]);
    }
  }

  lemma {:induction false} JoinChars(parts: seq<string>)
    requires Parts(parts)
    ensures forall c <- Join(parts) :: SlugChar(c) || c == '-'
  {
    if parts != [] {
      assert parts[0] in parts && Part(parts[0]);
      assert forall p :: p in parts[1..] ==> p in parts;
      JoinChars(parts[1..]);
    }
  }

  lemma {:induction false} DashedKeeps(s: string)
    requires forall c <- s :: SlugChar(c) || c == '-'
    ensures Dashed(s) == s
  {
    if s != "" {
      assert s[0] in s;
      assert forall c :: c in s[1..] ==> c in s;
      DashedKeeps(s[1..]);
    }
  }

  /** A string in normal form is its own permalink. */
  lemma NormalFormIsFixed(parts: seq<string>, lower: Lowercase)
    requires IsLowercase(lower) && Parts(parts)
    ensures PermalinkFrom(Join(parts), lower) == Join(parts)
  {
    var s := Join(parts);
    JoinChars(parts);
    assert lower(s) == s;
    DashedKeeps(s);
    if parts != [] {
      SplitJoin(parts);
      NonEmptyKeeps(parts);
    } else {
      assert Split("") == [""] && NonEmpty([""]) == [];
    }
  }

  /** Making a permalink of a permalink changes nothing, and splitting one gives its parts. */
  lemma PermalinkIdempotent(name: string, lower: Lowercase)
    requires IsLowercase(lower)
    ensures PermalinkFrom(PermalinkFrom(name, lower), lower) == PermalinkFrom(name, lower)
    ensures var parts := NonEmpty(Split(Dashed(lower(name))));
            parts != [] ==> Split(PermalinkFrom(name, lower)) == parts
  {
    var parts := NonEmpty(Split(Dashed(lower(name))));
    Permalinks(name, lower);
    NormalFormIsFixed(parts, lower);
    if parts != [] {
      SplitJoin(parts);
    }
  }

  /** The fixed points are exactly the normal forms. */
  lemma FixedPoints(s: string, lower: Lowercase)
    requires IsLowercase(lower)
    ensures PermalinkFrom(s, lower) == s <==> NormalForm(s)
  {
    Permalinks(s, lower);
    if NormalForm(s) {
      var parts :| Parts(parts) && s == Join(parts);
      NormalFormIsFixed(parts, lower);
    }
  }

  // ------------------------------------------------- what a slug is made of

  predicate Separates(c: char) {
    !Alphanumeric(c)
  }

  /** The parts of a slug with the letters read so far of the first. */
  function Started(word: string, parts: seq<string>): seq<string>
    requires parts != []
  {
    [word + parts[0]] + parts[1..]
  }

  lemma {:induction false} PartsAreWords(s: string, word: string)
    ensures NonEmpty(Started(word, Split(Dashed(s)))) == Splitting.Split(s, word, Separates)
    decreases s
  {
    var parts := Split(Dashed(s));
    if s == "" {
      assert parts == [""] && word + "" == word && parts[1..] == [];
      OnePart(word);
    } else {
      var c := if Alphanumeric(s[0]) then s[0] else '-';
      var rest := Split(Dashed(s[1..]));
      assert Dashed(s) == [c] + Dashed(s[1..]) && Dashed(s)[1..] == Dashed(s[1..]);
      if Separates(s[0]) {
        PartsAreWords(s[1..], "");
        assert "" + rest[0] == rest[0] && Started("", rest) == rest;
        assert parts == [""] + rest && parts[1..] == rest && word + "" == word;
        AfterPart(word, rest);
      } else {
        PartsAreWords(s[1..], word + [s[0]]);
        assert parts == [[c] + rest[0]] + rest[1..] && parts[1..] == rest[1..];
        assert word + ([c] + rest[0]) == word + [c] + rest[0];
      }
    }
  }

  lemma OnePart(word: string)
    ensures NonEmpty([word]) == if word == "" then [] else [word]
  {
    assert [word][1..] == [] && NonEmpty([]) == [];
  }

  lemma AfterPart(word: string, rest: seq<string>)
    ensures NonEmpty([word] + rest) == (if word == "" then [] else [word]) + NonEmpty(rest)
  {
    assert ([word] + rest)[1..] == rest;
  }

  /**
    A slug is made of the maximal runs of letters and digits of the lower-cased name,
    all of them and in their order, joined by dashes.
   */
  lemma PermalinkRuns(name: string, lower: Lowercase) returns (spans: seq<Splitting.Span>)
    ensures Splitting.AreWords(lower(name), spans, Separates) && Splitting.Inside(lower(name), spans)
    ensures PermalinkFrom(name, lower) == Join(Splitting.Texts(lower(name), spans))
  {
    var parts := Split(Dashed(lower(name)));
    spans := Splitting.SplitIsWords(lower(name), Separates);
    PartsAreWords(lower(name), "");
    assert "" + parts[0] == parts[0] && Started("", parts) == parts;
  }
}
