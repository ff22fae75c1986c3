// From the text of a registry file to its lines as Python reads them, and why no parsed field holds
// a line break.

module RegistryLines {
  import opened JsonValues
  import opened Options
  import opened RegistryBlocks
  import opened RegistryText
  import opened Text

  // ---- the lines of a file ----

  /** Where the first line ends. */
  function LineEnd(text: string): (n: nat)
    ensures n <= |text| && Unbroken(text[..n]) && (n < |text| ==> IsBreak(text[n]))
  {
    if text == "" || IsBreak(text[0]) then 0
    else
      var n := 1 + LineEnd(text[1..]);
      assert text[..n] == [text[0]] + text[1..][..n - 1];
      n
  }

  /** `readlines()` of a file opened as text: "\n", "\r" and "\r\n" all end a line and are read as "\n". */
  function FileLines(text: string): seq<string>
    decreases |text|
  {
    var n := LineEnd(text);
    if text == "" then []
    else if n == |text| then [text]
    else [text[..n] + "\n"] + FileLines(text[n + (if "\r\n" <= text[n..] then 2 else 1)..])
  }

  /** The text of a file made of these lines. */
  function FileText(lines: seq<string>): string {
    if lines == [] then "" else lines[0] + FileText(lines[1..])
  }

  lemma {:induction false} EndOfLine(body: string, rest: string)
    requires Unbroken(body) && rest != "" && IsBreak(rest[0])
    ensures LineEnd(body + rest) == |body|
  {
    if body == "" {
      assert body + rest == rest;
    } else {
      EndOfLine(body[1..], rest);
      assert (body + rest)[1..] == body[1..] + rest;
      assert body[0] in body;
    }
  }

  /** Either break ends a line, unless the two make one break together. */
  lemma FirstLineReadsBack(body: string, c: char, rest: string)
    requires Unbroken(body) && IsBreak(c) && !(c == '\r' && rest != "" && rest[0] == '\n')
    ensures FileLines(body + ([c] + rest)) == [body + "\n"] + FileLines(rest)
  {
    var tail := [c] + rest;
    var text := body + tail;
    EndOfLine(body, tail);
    assert text[..|body|] == body && text[|body|..] == tail && text[|body| + 1..] == rest;
    StartsCrLf(tail);
  }

  lemma StartsCrLf(s: string)
    ensures "\r\n" <= s <==> |s| >= 2 && s[0] == '\r' && s[1] == '\n'
  {
    if |s| >= 2 { assert s[..2] == [s[0], s[1]]; }
  }

  ghost predicate IsLine(line: string) {
    line != "" && line[|line| - 1] == '\n' && Unbroken(line[..|line| - 1])
  }

  /** A file of whole unbroken lines is read as these lines. */
  lemma {:induction false} FileReadsBack(lines: seq<string>)
    requires forall line :: line in lines ==> IsLine(line)
    ensures FileLines(FileText(lines)) == lines
  {
    if lines != [] {
      assert lines[0] in lines;
      FileReadsBack(lines[1..]);
      WholeLineReadsBack(lines[0], FileText(lines[1..]));
    }
  }

  lemma WholeLineReadsBack(line: string, rest: string)
    requires IsLine(line)
    ensures FileLines(line + rest) == [line] + FileLines(rest)
  {
    var body := line[..|line| - 1];
    assert line == body + "\n" && line + rest == body + (['\n'] + rest);
    FirstLineReadsBack(body, '\n', rest);
  }

  /** However a file breaks its lines, a line that is read holds no break except its last character. */
  lemma {:induction false} ReadLinesUnbroken(text: string, line: string)
    requires line in FileLines(text)
    ensures IsLine(line) || Unbroken(line)
    decreases |text|
  {
    var n := LineEnd(text);
    if n == |text| {
      assert text[..n] == text;
    } else if line == text[..n] + "\n" {
      assert line[..|line| - 1] == text[..n];
    } else {
      ReadLinesUnbroken(text[n + (if "\r\n" <= text[n..] then 2 else 1)..], line);
    }
  }

  // ---- what is parsed from unbroken lines ----

  predicate UnbrokenValue(v: Json) {
    v.Str? ==> Unbroken(v.s)
  }

  ghost predicate UnbrokenLines(ls: seq<Line>) {
    forall l :: l in ls ==> Unbroken(l.text)
  }

  ghost predicate UnbrokenFields(fields: map<string, Json>) {
    forall k :: k in fields ==> UnbrokenValue(fields[k])
  }

  lemma {:induction false} StripPart(space: char -> bool, s: string)
    ensures forall c :: c in Strip(space, s) ==> c in s
  {
    if s != "" && space(s[0]) {
      StripPart(space, s[1..]);
      assert forall c :: c in s[1..] ==> c in s;
    }
  }

  lemma StripUnbroken(s: string)
    requires Unbroken(s)
    ensures Unbroken(PyStrip(s))
  {
    StripPart(IsPySpace, s);
  }

  lemma ScalarUnbroken(text: string)
    requires Unbroken(text)
    ensures UnbrokenValue(ParseScalar(text))
  {
    StripUnbroken(text);
  }

  lemma FieldTextUnbroken(text: string)
    requires Unbroken(text) && ShapeOf(text).KeyField?
    ensures Unbroken(ShapeOf(text).rest)
  {
    StripUnbroken(text[IndexOf(text, ':') + 1..]);
  }

  lemma {:induction false} FoldedUnbroken(ls: seq<Line>)
    requires UnbrokenLines(ls)
    ensures Unbroken(Join(' ', FoldedText(ls)))
  {
    if ls != [] {
      assert ls[0] in ls;
      FoldedUnbroken(ls[1..]);
      var parts := FoldedText(ls);
      if ls[0].text != "" {
        assert parts[1..] == FoldedText(ls[1..]);
      } else {
        assert parts == FoldedText(ls[1..]);
      }
    }
  }

  lemma PartOfLines(ls: seq<Line>, k: nat)
    requires k <= |ls| && UnbrokenLines(ls)
    ensures UnbrokenLines(ls[..k]) && UnbrokenLines(ls[k..])
  {
  }

  /** A mapping read from unbroken lines maps no key to a string with a line break. */
  lemma {:induction false} ReadUnbroken(n: nat, ls: seq<Line>, f: Found)
    requires UnbrokenLines(ls) && (f.fields.Some? ==> UnbrokenFields(f.fields.value))
    ensures var r := Read(SYNTAX, n, ls, f); UnbrokenLines(r.1) && (r.0.Obj? ==> UnbrokenFields(r.0.fields))
    decreases |ls|, 1
  {
    if ls != [] && ls[0].indent >= n {
      assert ls[0] in ls;
      PartOfLines(ls, 1);
      if ls[0].indent > n {
        ReadUnbroken(n, ls[1..], f);
      } else {
        ReadLineUnbroken(n, ls, f);
      }
    }
  }

  lemma {:induction false} ReadLineUnbroken(n: nat, ls: seq<Line>, f: Found)
    requires ls != [] && ls[0].indent == n && UnbrokenLines(ls[1..]) && Unbroken(ls[0].text)
    requires f.fields.Some? ==> UnbrokenFields(f.fields.value)
    ensures var r := Read(SYNTAX, n, ls, f); UnbrokenLines(r.1) && (r.0.Obj? ==> UnbrokenFields(r.0.fields))
    decreases |ls|, 0, 1
  {
    match ShapeOf(ls[0].text)
    case ItemValue(text) => ReadUnbroken(n, ls[1..], WithItem(f, ParseScalar(text)));
    case ItemField(key, rest) =>
      var (v, more) := ReadItem(SYNTAX, n, ls, key, rest);
      ItemLeavesUnbroken(n, ls, key, rest);
      ReadUnbroken(n, more, WithItem(f, v));
    case KeyField(key, rest) =>
      var (v, more) := ReadField(SYNTAX, n, ls, rest);
      FieldTextUnbroken(ls[0].text);
      FieldUnbroken(n, ls, rest);
      ReadUnbroken(n, more, WithField(f, key, v));
    case Noise => ReadUnbroken(n, ls[1..], f);
  }

  lemma {:induction false} ItemLeavesUnbroken(n: nat, ls: seq<Line>, key: string, rest: string)
    requires ls != [] && UnbrokenLines(ls[1..])
    ensures UnbrokenLines(ReadItem(SYNTAX, n, ls, key, rest).1)
    decreases |ls|, 0, 0
  {
    var more := ls[1..];
    if rest == "" {
      ReadUnbroken(n + 2, more, NOTHING);
      more := Read(SYNTAX, n + 2, more, NOTHING).1;
    }
    ReadUnbroken(n + 2, more, NOTHING);
  }

  lemma {:induction false} FieldUnbroken(n: nat, ls: seq<Line>, rest: string)
    requires ls != [] && UnbrokenLines(ls[1..]) && Unbroken(rest)
    ensures var r := ReadField(SYNTAX, n, ls, rest); UnbrokenValue(r.0) && UnbrokenLines(r.1)
    decreases |ls|, 0, 0
  {
    var tail := ls[1..];
    if rest == ">" || rest == "|" {
      var k := FoldedLength(tail, n + 2);
      PartOfLines(tail, k);
      FoldedUnbroken(tail[..k]);
    } else if rest != "" {
      ScalarUnbroken(rest);
    } else {
      ReadUnbroken(n + 2, tail, NOTHING);
      BlockIsNoString(n + 2, tail, NOTHING);
    }
  }

  lemma {:induction false} BlockIsNoString(n: nat, ls: seq<Line>, f: Found)
    ensures !Read(SYNTAX, n, ls, f).0.Str?
    decreases |ls|
  {
    if ls != [] && ls[0].indent >= n {
      if ls[0].indent > n {
        BlockIsNoString(n, ls[1..], f);
      } else {
        match ShapeOf(ls[0].text)
        case ItemValue(text) => BlockIsNoString(n, ls[1..], WithItem(f, ParseScalar(text)));
        case ItemField(key, rest) =>
          var (v, more) := ReadItem(SYNTAX, n, ls, key, rest);
          BlockIsNoString(n, more, WithItem(f, v));
        case KeyField(key, rest) =>
          var (v, more) := ReadField(SYNTAX, n, ls, rest);
          BlockIsNoString(n, more, WithField(f, key, v));
        case Noise => BlockIsNoString(n, ls[1..], f);
      }
    }
  }
}
