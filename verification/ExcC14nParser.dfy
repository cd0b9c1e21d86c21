/**
  A reader for the canonical form, and the proof that it inverts `Serialize`:
  no two different canonical contents share a string.
 */
module ExcC14nParser {
  import opened Options
  import opened XmlTree
  import opened ExcC14n
  import opened Sequences

  // -------------------------------------------------------------- scanning

  /** Length of the longest prefix of `s` without a `stop` character. */
  function Until(s: string, stop: char -> bool): (n: nat)
    ensures n <= |s|
    ensures forall i :: 0 <= i < n ==> !stop(s[i])
    ensures n < |s| ==> stop(s[n])
  {
    if s == "" || stop(s[0]) then 0 else 1 + Until(s[1..], stop)
  }

  lemma UntilAppend(a: string, b: string, stop: char -> bool)
    requires forall c <- a :: !stop(c)
    requires b != "" && stop(b[0])
    ensures Until(a + b, stop) == |a|
  {
    assert (a + b)[|a|] == b[0];
    assert forall i :: 0 <= i < |a| ==> (a + b)[i] in a;
  }

  predicate EqualsSign(c: char) { c == '=' }

  predicate Quote(c: char) { c == '"' }

  predicate Space(c: char) { c == ' ' }

  predicate LessThan(c: char) { c == '<' }

  /** Position of the first `?>`. */
  function InstructionEnd(s: string): (r: Option<nat>)
    ensures r.Some? ==> r.value + 2 <= |s|
  {
    if |s| < 2 then None
    else if s[0] == '?' && s[1] == '>' then Some(0)
    else var i :- InstructionEnd(s[1..]); Some(i + 1)
  }

  lemma InstructionEndAppend(body: string, rest: string)
    requires !ClosesInstruction(body)
    ensures InstructionEnd(body + "?>" + rest) == Some(|body|)
  {
    var s := body + "?>" + rest;
    if body != "" {
      assert s[1..] == body[1..] + "?>" + rest;
      assert forall i :: 0 <= i < |body| - 1 ==> body[1..][i] == body[i + 1];
      InstructionEndAppend(body[1..], rest);
      if |body| > 1 {
        assert !(body[0] == '?' && body[0 + 1] == '>');
      }
    }
  }

  /** The character at the front of `s`, resolving the references the writer produces, and its length. */
  function Reference(s: string): (r: (char, nat))
    requires s != ""
    ensures 0 < r.1 <= |s|
  {
    if "&amp;" <= s then ('&', 5)
    else if "&lt;" <= s then ('<', 4)
    else if "&gt;" <= s then ('>', 4)
    else if "&quot;" <= s then ('"', 6)
    else if "&#x9;" <= s then ('\t', 5)
    else if "&#xA;" <= s then ('\n', 5)
    else if "&#xD;" <= s then ('\r', 5)
    else (s[0], 1)
  }

  function Unescape(s: string): string
    decreases |s|
  {
    if s == "" then "" else [Reference(s).0] + Unescape(s[Reference(s).1..])
  }

  lemma ReferenceOf(e: string, rest: string, c: char)
    requires (e, c) in {("&amp;", '&'), ("&lt;", '<'), ("&gt;", '>'), ("&quot;", '"'),
                        ("&#x9;", '\t'), ("&#xA;", '\n'), ("&#xD;", '\r')} || (e == [c] && c != '&')
    ensures Reference(e + rest) == (c, |e|)
  {
    Cut(e, rest);
    var s := e + rest;
    assert s[0] == e[0];
    assert |e| >= 4 ==> s[1] == e[1] && s[2] == e[2] && s[3] == e[3];
  }

  lemma UnescapeTextChar(c: char, rest: string)
    ensures Unescape(EscapeTextChar(c) + rest) == [c] + Unescape(rest)
    ensures '<' !in EscapeTextChar(c)
  {
    ReferenceOf(EscapeTextChar(c), rest, c);
    Cut(EscapeTextChar(c), rest);
  }

  lemma UnescapeAttributeChar(c: char, rest: string)
    ensures Unescape(EscapeAttributeChar(c) + rest) == [c] + Unescape(rest)
    ensures '"' !in EscapeAttributeChar(c)
  {
    ReferenceOf(EscapeAttributeChar(c), rest, c);
    Cut(EscapeAttributeChar(c), rest);
  }

  lemma {:induction false} UnescapeText(text: string)
    ensures Unescape(EscapeText(text)) == text
    ensures '<' !in EscapeText(text)
  {
    if text != "" {
      UnescapeText(text[1..]);
      UnescapeTextChar(text[0], EscapeText(text[1..]));
      NotInAppend('<', EscapeTextChar(text[0]), EscapeText(text[1..]));
      HeadTail(text);
    }
  }

  lemma {:induction false} UnescapeAttribute(value: string)
    ensures Unescape(EscapeAttribute(value)) == value
    ensures '"' !in EscapeAttribute(value)
  {
    if value != "" {
      UnescapeAttribute(value[1..]);
      UnescapeAttributeChar(value[0], EscapeAttribute(value[1..]));
      NotInAppend('"', EscapeAttributeChar(value[0]), EscapeAttribute(value[1..]));
      HeadTail(value);
    }
  }

  lemma {:induction false} EscapeTextAppend(a: string, b: string)
    ensures EscapeText(a + b) == EscapeText(a) + EscapeText(b)
  {
    if a == "" {
      assert a + b == b;
    } else {
      assert (a + b)[1..] == a[1..] + b;
      EscapeTextAppend(a[1..], b);
    }
  }

  // --------------------------------------------------------------- parsing

  function ParseFields(s: string): (r: Option<(seq<Field>, string)>)
    ensures r.Some? ==> |r.value.1| < |s|
    decreases |s|
  {
    if s == "" then None
    else if s[0] == '>' then Some(([], s[1..]))
    else if s[0] != ' ' then None
    else
      var n := Until(s[1..], EqualsSign);
      var value := s[1..][n..];
      if !("=\"" <= value) then None
      else
        var m := Until(value[2..], Quote);
        if m == |value[2..]| then None
        else
          var rest :- ParseFields(value[2..][m + 1..]);
          Some(([Field(s[1..][..n], Unescape(value[2..][..m]))] + rest.0, rest.1))
  }

  function InstructionOf(body: string, next: Content<Tag>): Content<Tag> {
    var n := Until(body, Space);
    Pi(body[..n], if n < |body| then Some(body[n + 1..]) else None, next)
  }

  /** Parses siblings up to the end of input or the parent's end tag. */
  function Parse(s: string): (r: Option<(Content<Tag>, string)>)
    ensures r.Some? ==> |r.value.1| <= |s|
    decreases |s|, 1
  {
    if s == "" || "</" <= s then Some((End, s))
    else if "<?" <= s then ParseInstruction(s)
    else if s[0] == '<' then ParseElement(s)
    else
      var n := Until(s, LessThan);
      var rest :- Parse(s[n..]);
      Some((Run(Unescape(s[..n]), rest.0), rest.1))
  }

  function ParseInstruction(s: string): (r: Option<(Content<Tag>, string)>)
    requires "<?" <= s
    ensures r.Some? ==> |r.value.1| <= |s|
    decreases |s|, 0
  {
    var n :- InstructionEnd(s[2..]);
    var rest :- Parse(s[2..][n + 2..]);
    Some((InstructionOf(s[2..][..n], rest.0), rest.1))
  }

  function ParseElement(s: string): (r: Option<(Content<Tag>, string)>)
    requires s != "" && s[0] == '<'
    ensures r.Some? ==> |r.value.1| <= |s|
    decreases |s|, 0
  {
    var n := Until(s[1..], NameStop);
    var name := s[1..][..n];
    var fields :- ParseFields(s[1..][n..]);
    var inner :- Parse(fields.1);
    var close := "</" + name + ">";
    if !(close <= inner.1) then None
    else
      var rest :- Parse(inner.1[|close|..]);
      Some((Elem(Tag(name, fields.0), inner.0, rest.0), rest.1))
  }

  // ----------------------------------------------------------- normal form

  /** Adjacent text runs joined and empty ones dropped, as any reader sees them. */
  function Merge<E>(c: Content<E>): Content<E> {
    match c
    case End => End
    case Run(text, next) =>
      var m := Merge(next);
      if text == "" then m
      else if m.Run? then Run(text + m.text, m.next)
      else Run(text, m)
    case Pi(target, value, next) => Pi(target, value, Merge(next))
    case Elem(head, children, next) => Elem(head, Merge(children), Merge(next))
  }

  predicate Merged<E>(c: Content<E>) {
    match c
    case End => true
    case Run(text, next) => text != "" && !next.Run? && Merged(next)
    case Pi(_, _, next) => Merged(next)
    case Elem(_, children, next) => Merged(children) && Merged(next)
  }

  lemma {:induction false} MergeNormal<E>(c: Content<E>)
    ensures Merged(Merge(c))
    ensures Merged(c) ==> Merge(c) == c
  {
    match c
    case End =>
    case Run(_, next) => MergeNormal(next);
    case Pi(_, _, next) => MergeNormal(next);
    case Elem(_, children, next) => MergeNormal(children); MergeNormal(next);
  }

  lemma SerializeRun(text: string, m: Content<Tag>)
    ensures text == "" ==> EscapeText(text) + Serialize(m) == Serialize(m)
    ensures m.Run? ==> EscapeText(text) + Serialize(m) == EscapeText(text + m.text) + Serialize(m.next)
  {
    EmptyLeft(Serialize(m));
    if m.Run? {
      EscapeTextAppend(text, m.text);
      Assoc(EscapeText(text), EscapeText(m.text), Serialize(m.next));
    }
  }

  lemma {:induction false} SerializeMerge(c: Content<Tag>)
    ensures Serialize(Merge(c)) == Serialize(c)
  {
    match c
    case End =>
    case Run(text, next) =>
      SerializeMerge(next);
      SerializeRun(text, Merge(next));
    case Pi(_, _, next) => SerializeMerge(next);
    case Elem(_, children, next) => SerializeMerge(children); SerializeMerge(next);
  }

  // ------------------------------------------------------------ round trip

  /** What names and processing instructions in parsed XML look like. */
  predicate Printable(c: Content<Tag>) {
    match c
    case End => true
    case Run(_, next) => Printable(next)
    case Pi(target, value, next) =>
      IsName(target) && (value.Some? ==> !ClosesInstruction(value.value)) && Printable(next)
    case Elem(tag, children, next) =>
      IsName(tag.name) && (forall f <- tag.fields :: IsName(f.name)) && Printable(children) && Printable(next)
  }

  lemma {:induction false} PrintableMerge(c: Content<Tag>)
    requires Printable(c)
    ensures Printable(Merge(c))
  {
    match c
    case End =>
    case Run(_, next) => PrintableMerge(next);
    case Pi(_, _, next) => PrintableMerge(next);
    case Elem(_, children, next) => PrintableMerge(children); PrintableMerge(next);
  }

  /** The serialization followed by `tail`, nested the way it is read. */
  function FieldsOnto(fields: seq<Field>, tail: string): string {
    if fields == [] then tail
    else " " + (fields[0].name + ("=\"" + (EscapeAttribute(fields[0].value) + ("\"" + FieldsOnto(fields[1..], tail)))))
  }

  function Onto(c: Content<Tag>, tail: string): string
    decreases c
  {
    match c
    case End => tail
    case Run(text, next) => EscapeText(text) + Onto(next, tail)
    case Pi(target, value, next) => "<?" + (PiBody(target, value) + ("?>" + Onto(next, tail)))
    case Elem(tag, children, next) =>
      var close := "</" + tag.name + ">";
      "<" + (tag.name + FieldsOnto(tag.fields, ">" + Onto(children, close + Onto(next, tail))))
  }

  function PiBody(target: string, value: Option<string>): string {
    target + (if value.Some? then " " + value.value else "")
  }

  lemma {:induction false} FieldsOntoAppends(fields: seq<Field>, tail: string)
    ensures FieldsOnto(fields, tail) == SerializeFields(fields) + tail
  {
    if fields != [] {
      FieldsOntoAppends(fields[1..], tail);
    }
  }

  lemma {:induction false} OntoAppends(c: Content<Tag>, tail: string)
    ensures Onto(c, tail) == Serialize(c) + tail
    decreases c
  {
    match c
    case End =>
    case Run(text, next) =>
      OntoAppends(next, tail);
      Assoc(EscapeText(text), Serialize(next), tail);
    case Pi(target, value, next) =>
      OntoAppends(next, tail);
      PiAppends(target, value, Serialize(next), tail);
    case Elem(tag, children, next) =>
      var close := "</" + tag.name + ">";
      OntoAppends(next, tail);
      OntoAppends(children, close + Onto(next, tail));
      FieldsOntoAppends(tag.fields, ">" + Onto(children, close + Onto(next, tail)));
      ElemAppends(tag.name, SerializeFields(tag.fields), Serialize(children), Serialize(next), tail);
  }

  lemma PiAppends(target: string, value: Option<string>, next: string, tail: string)
    ensures "<?" + (PiBody(target, value) + ("?>" + (next + tail))) == SerializePi(target, value) + next + tail
  {
    assert SerializePi(target, value) == "<?" + (PiBody(target, value) + "?>");
  }

  lemma ElemAppends(name: string, fields: string, children: string, next: string, tail: string)
    ensures "<" + (name + (fields + (">" + (children + ("</" + name + ">" + (next + tail))))))
         == "<" + name + fields + ">" + children + "</" + name + ">" + next + tail
  {
  }

  lemma {:induction false} ParseFieldsOnto(fields: seq<Field>, tail: string)
    requires forall f <- fields :: IsName(f.name)
    ensures ParseFields(FieldsOnto(fields, ">" + tail)) == Some((fields, tail))
  {
    if fields == [] {
      Cut(">", tail);
    } else {
      var f := fields[0];
      ParseFieldsOnto(fields[1..], tail);
      assert IsName(f.name);
      UnescapeAttribute(f.value);
      ParseOneField(f.name, EscapeAttribute(f.value), FieldsOnto(fields[1..], ">" + tail));
      HeadTail(fields);
    }
  }

  lemma QuotedCuts(escaped: string, more: string)
    requires '"' !in escaped
    ensures var quoted := escaped + ("\"" + more);
            && Until(quoted, Quote) == |escaped| < |quoted|
            && quoted[..|escaped|] == escaped && quoted[|escaped| + 1..] == more
  {
    UntilAppend(escaped, "\"" + more, Quote);
    Cut(escaped, "\"" + more);
  }

  lemma NameCuts(name: string, quoted: string)
    requires IsName(name)
    ensures var value := "=\"" + quoted;
            var s := " " + (name + value);
            && s[0] == ' ' && s[1..] == name + value && Until(name + value, EqualsSign) == |name|
            && (name + value)[..|name|] == name && (name + value)[|name|..] == value
            && "=\"" <= value && value[2..] == quoted
  {
    var value := "=\"" + quoted;
    UntilAppend(name, value, EqualsSign);
    Cut(" ", name + value);
    Cut(name, value);
    Cut("=\"", quoted);
  }

  lemma ParseOneField(name: string, escaped: string, more: string)
    requires IsName(name) && '"' !in escaped && ParseFields(more).Some?
    ensures var r := ParseFields(more).value;
            ParseFields(" " + (name + ("=\"" + (escaped + ("\"" + more)))))
            == Some(([Field(name, Unescape(escaped))] + r.0, r.1))
  {
    NameCuts(name, escaped + ("\"" + more));
    QuotedCuts(escaped, more);
  }

  lemma PiBodyOpen(target: string, value: Option<string>)
    requires IsName(target) && (value.Some? ==> !ClosesInstruction(value.value))
    ensures !ClosesInstruction(PiBody(target, value))
  {
    var body := PiBody(target, value);
    assert forall i :: 0 <= i < |target| ==> body[i] in target;
    assert value.Some? ==> forall i :: |target| + 1 <= i < |body| ==> body[i] == value.value[i - |target| - 1];
  }

  lemma PiBodyParts(target: string, value: Option<string>, next: Content<Tag>)
    requires IsName(target)
    ensures InstructionOf(PiBody(target, value), next) == Pi(target, value, next)
  {
    if value.Some? {
      Cut(target, " " + value.value);
      UntilAppend(target, " " + value.value, Space);
      assert (target + (" " + value.value))[|target| + 1..] == value.value;
    } else {
      assert PiBody(target, value) == target;
      assert forall i :: 0 <= i < |target| ==> target[i] in target;
    }
  }

  lemma PiCuts(body: string, rest: string)
    requires !ClosesInstruction(body)
    ensures var inner := body + ("?>" + rest);
            var s := "<?" + inner;
            && "<?" <= s && !("</" <= s) && s[2..] == inner
            && InstructionEnd(inner) == Some(|body|) && inner[..|body|] == body && inner[|body| + 2..] == rest
  {
    var inner := body + ("?>" + rest);
    assert inner == body + "?>" + rest;
    InstructionEndAppend(body, rest);
    Cut("<?", inner);
    assert ("<?" + inner)[1] == '?';
    Cut(body, "?>" + rest);
  }

  lemma ParsePi(body: string, rest: string)
    requires !ClosesInstruction(body) && Parse(rest).Some?
    ensures var r := Parse(rest).value;
            Parse("<?" + (body + ("?>" + rest))) == Some((InstructionOf(body, r.0), r.1))
  {
    PiCuts(body, rest);
    ParsePiAt("<?" + (body + ("?>" + rest)), |body|);
  }

  lemma ParsePiAt(s: string, n: nat)
    requires "<?" <= s && !("</" <= s) && InstructionEnd(s[2..]) == Some(n) && Parse(s[2..][n + 2..]).Some?
    ensures var r := Parse(s[2..][n + 2..]).value;
            Parse(s) == Some((InstructionOf(s[2..][..n], r.0), r.1))
  {
    var tail := s[2..];
    var after := tail[n + 2..];
    var r := Parse(after).value;
    assert ParseInstruction(s) == Some((InstructionOf(tail[..n], r.0), r.1));
  }

  lemma ElemCuts(name: string, fields: string)
    requires IsName(name) && fields != "" && NameStop(fields[0])
    ensures var s := "<" + (name + fields);
            && s[0] == '<' && !("</" <= s) && !("<?" <= s) && s[1..] == name + fields
            && Until(name + fields, NameStop) == |name|
            && (name + fields)[..|name|] == name && (name + fields)[|name|..] == fields
  {
    Cut("<", name + fields);
    Cut(name, fields);
    assert (name + fields)[0] == name[0] && name[0] in name;
    UntilAppend(name, fields, NameStop);
  }

  lemma ParseElem(tag: Tag, content: string, children: Content<Tag>, rest: string)
    requires IsName(tag.name) && forall f <- tag.fields :: IsName(f.name)
    requires Parse(content) == Some((children, "</" + tag.name + ">" + rest))
    requires Parse(rest).Some?
    ensures var r := Parse(rest).value;
            Parse("<" + (tag.name + FieldsOnto(tag.fields, ">" + content))) == Some((Elem(tag, children, r.0), r.1))
  {
    ParseFieldsOnto(tag.fields, content);
    FieldsOntoStart(tag.fields, content);
    ElemCuts(tag.name, FieldsOnto(tag.fields, ">" + content));
    Cut("</" + tag.name + ">", rest);
  }

  lemma FieldsOntoStart(fields: seq<Field>, content: string)
    ensures FieldsOnto(fields, ">" + content) != "" && NameStop(FieldsOnto(fields, ">" + content)[0])
  {
  }

  lemma ParseRun(escaped: string, rest: string)
    requires escaped != "" && '<' !in escaped
    requires rest == "" || rest[0] == '<'
    requires Parse(rest).Some?
    ensures var r := Parse(rest).value;
            Parse(escaped + rest) == Some((Run(Unescape(escaped), r.0), r.1))
  {
    var s := escaped + rest;
    Cut(escaped, rest);
    assert s[0] in escaped;
    if rest == "" {
      assert s == escaped;
      assert forall i :: 0 <= i < |s| ==> s[i] in escaped;
      assert Until(s, LessThan) == |s|;
    } else {
      UntilAppend(escaped, rest, LessThan);
    }
  }

  /** The parser inverts the writer on merged content, whatever end tag follows. */
  lemma {:induction false} ParseOnto(c: Content<Tag>, tail: string)
    requires Printable(c) && Merged(c)
    requires tail == "" || "</" <= tail
    ensures Parse(Onto(c, tail)) == Some((c, tail))
    decreases c
  {
    match c
    case End =>
    case Pi(target, value, next) =>
      ParseOnto(next, tail);
      PiBodyOpen(target, value);
      PiBodyParts(target, value, next);
      ParsePi(PiBody(target, value), Onto(next, tail));
    case Elem(tag, children, next) =>
      var close := "</" + tag.name + ">";
      ParseOnto(next, tail);
      assert "</" <= close + Onto(next, tail);
      ParseOnto(children, close + Onto(next, tail));
      ParseElem(tag, Onto(children, close + Onto(next, tail)), children, Onto(next, tail));
    case Run(text, next) =>
      ParseOnto(next, tail);
      UnescapeText(text);
      assert EscapeText(text) != "";
      assert Onto(next, tail) == "" || Onto(next, tail)[0] == '<';
      ParseRun(EscapeText(text), Onto(next, tail));
  }

  /** Parsing a serialized content gives the content back, with its text runs merged. */
  lemma RoundTrip(c: Content<Tag>)
    requires Printable(c)
    ensures Parse(Serialize(c)) == Some((Merge(c), ""))
  {
    MergeNormal(c);
    PrintableMerge(c);
    SerializeMerge(c);
    ParseOnto(Merge(c), "");
    OntoAppends(Merge(c), "");
    assert Serialize(c) + "" == Serialize(c);
  }

  /** Unique decodability: equal strings mean equal merged contents, and conversely. */
  lemma SerializeInjective(a: Content<Tag>, b: Content<Tag>)
    requires Printable(a) && Printable(b)
    ensures Serialize(a) == Serialize(b) <==> Merge(a) == Merge(b)
  {
    RoundTrip(a);
    RoundTrip(b);
    SerializeMerge(a);
    SerializeMerge(b);
  }
}
