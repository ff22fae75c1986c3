// The Markdown of session notes, line by line (README.html:1711-1848).

module NotesForms {
  import opened NotesMd
  import opened Outlines
  import opened Sorting
  import opened Text

  predicate AllHashes(h: string) {
    forall c :: c in h ==> c == '#'
  }

  lemma {:induction false} RepeatIs(h: string)
    requires AllHashes(h)
    ensures h == Repeat('#', |h|)
  {
    if h != "" {
      assert h[0] in h && forall c :: c in h[1..] ==> c in h;
      RepeatIs(h[1..]);
      assert h == [h[0]] + h[1..];
    }
  }

  // ----- What is printed -----

  /** A note is its heading, its trimmed body between empty lines if there is one, and its children one level deeper.
      Headings stop at six number signs, and a note without a title is called Untitled. */
  lemma PrintedNote(n: Note, depth: nat, h: string)
    requires AllHashes(h) && |h| == if depth < 5 then depth + 1 else 6
    ensures Printed([n], depth) == Join('\n',
      [h + " " + if n.title == "" then "Untitled" else n.title]
      + (if Trim(n.body) == "" then [] else ["", Trim(n.body), ""])
      + (if n.ch == [] then [] else [Printed(n.ch, depth + 1)]))
  {
    RepeatIs(h);
    var heading := h + " " + ShownTitle(n.title);
    var body, below := BodyLines(Trim(n.body)), Lines(Sections(n.ch, depth + 1));
    var shown := if Trim(n.body) == "" then [] else ["", Trim(n.body), ""];
    OneNoteLines(n, depth);
    HeadAndBody(heading, Trim(n.body));
    if n.ch == [] {
      assert below == [];
      assert [heading] + body + [] == [heading] + body && [heading] + shown + [] == [heading] + shown;
    } else {
      assert Sections(n.ch, depth + 1) != [] && below != [];
      JoinNested([heading] + shown, [heading] + body, below);
    }
  }

  lemma OneNoteLines(n: Note, depth: nat)
    ensures Lines(Sections([n], depth)) == [Repeat('#', HeadingDepth(depth)) + " " + ShownTitle(n.title)] + BodyLines(Trim(n.body))
      + Lines(Sections(n.ch, depth + 1))
  {
    var head := Section(HeadingDepth(depth), ShownTitle(n.title), Trim(n.body));
    var children := Sections(n.ch, depth + 1);
    assert [n][1..] == [] && Sections([n], depth) == [head] + children;
    LinesAppend([head], children);
    assert Lines([head]) == SectionLines(head);
  }

  lemma HeadAndBody(heading: string, body: string)
    ensures Join('\n', [heading] + BodyLines(body)) == Join('\n', [heading] + if body == "" then [] else ["", body, ""])
  {
    if body != "" {
      JoinBody(body);
      JoinAppend('\n', [heading], BodyLines(body));
      JoinAppend('\n', [heading], ["", body, ""]);
    }
  }

  /** Notes follow each other on new lines. */
  lemma PrintedTogether(a: seq<Note>, b: seq<Note>, depth: nat)
    requires a != [] && b != []
    ensures Printed(a + b, depth) == Printed(a, depth) + "\n" + Printed(b, depth)
  {
    SectionsAppend(a, b, depth);
    LinesAppend(Sections(a, depth), Sections(b, depth));
    JoinAppend('\n', Lines(Sections(a, depth)), Lines(Sections(b, depth)));
  }

  // ----- What a heading is -----

  ghost predicate IsMarkOf(line: string, h: string, t: string) {
    AllHashes(h) && 1 <= |h| <= 6 && line == h + (" " + t)
  }

  lemma {:induction false} LeadingHashes(line: string)
    ensures AllHashes(line[..Hashes(line)])
  {
    if line != "" && line[0] == '#' {
      LeadingHashes(line[1..]);
      assert line[..Hashes(line)] == [line[0]] + line[1..][..Hashes(line[1..])];
    }
  }

  /** A mark is one to six number signs and a blank, at the start of a line. */
  lemma MarksAre(line: string)
    ensures IsMark(line) <==> exists h, t :: IsMarkOf(line, h, t)
  {
    if IsMark(line) {
      var n := Hashes(line);
      LeadingHashes(line);
      assert line == line[..n] + (" " + line[n + 1..]);
      assert IsMarkOf(line, line[..n], line[n + 1..]);
    }
    if h, t :| IsMarkOf(line, h, t) { MarkReads(line, h, t); }
  }

  lemma MarkReads(line: string, h: string, t: string)
    requires IsMarkOf(line, h, t)
    ensures IsMark(line) && Hashes(line) == |h| && HeadingText(line) == UpToBreak(t)
  {
    RepeatIs(h);
    HashesOfRepeat(|h|, " " + t);
    assert line[|h|] == ' ' && line[|h| + 1..] == t;
  }

  lemma {:induction false} UpToBreakIs(t: string, rest: string)
    requires SingleLine(t) && (rest == "" || NotesMd.IsBreak(rest[0]))
    ensures UpToBreak(t + rest) == t
  {
    if t == "" {
      assert t + rest == rest;
    } else {
      assert t[0] in t && (t + rest)[1..] == t[1..] + rest;
      UpToBreakIs(t[1..], rest);
    }
  }

  /** A mark with a text behind it is a heading; the text ends at the first line terminator. */
  lemma HeadingsAre(line: string, h: string, t: string, rest: string)
    requires IsMarkOf(line, h, t + rest) && SingleLine(t) && (rest == "" || NotesMd.IsBreak(rest[0]))
    ensures IsMark(line) && Hashes(line) == |h| && HeadingText(line) == t && (IsHeading(line) <==> t != "")
  {
    MarkReads(line, h, t + rest);
    UpToBreakIs(t, rest);
  }

  // ----- What the importer takes from other lines -----

  /** Lines before a heading, and marks without a text, give nothing. */
  lemma {:induction false} LinesBeforeHeading(front: seq<string>, rest: seq<string>)
    requires forall line :: line in front ==> !IsHeading(line)
    ensures Scan(front + rest) == Scan(rest)
  {
    if front == [] {
      assert front + rest == rest;
    } else {
      assert front[0] in front && (front + rest)[1..] == front[1..] + rest;
      LinesBeforeHeading(front[1..], rest);
    }
  }

  lemma {:induction false} BlankFront(front: seq<string>, rest: seq<string>)
    requires (forall line :: line in front ==> Trim(line) == "") && (rest == [] || Trim(rest[0]) != "")
    ensures StripStart(front + rest) == rest
  {
    if front == [] {
      assert front + rest == rest;
    } else {
      assert front[0] in front && (front + rest)[1..] == front[1..] + rest;
      BlankFront(front[1..], rest);
    }
  }

  lemma {:induction false} BlankBack(rest: seq<string>, back: seq<string>)
    requires (forall line :: line in back ==> Trim(line) == "") && (rest == [] || Trim(rest[|rest| - 1]) != "")
    ensures StripEnd(rest + back) == rest
  {
    if back == [] {
      assert rest + back == rest;
    } else {
      var init := back[..|back| - 1];
      assert back[|back| - 1] in back && (rest + back)[..|rest + back| - 1] == rest + init;
      BlankBack(rest, init);
    }
  }

  /** A body is its lines without the blank ones at both ends. */
  lemma BodyIs(front: seq<string>, body: seq<string>, back: seq<string>)
    requires (forall line :: line in front ==> Trim(line) == "") && forall line :: line in back ==> Trim(line) == ""
    requires body != [] && Trim(body[0]) != "" && Trim(body[|body| - 1]) != ""
    ensures BodyOf(front + body + back) == Join('\n', body)
  {
    AppendAssoc(front, body, back);
    BlankFront(front, body + back);
    BlankBack(body, back);
  }

  /** Blank lines alone are no body. */
  lemma NoBody(lines: seq<string>)
    requires forall line :: line in lines ==> Trim(line) == ""
    ensures BodyOf(lines) == ""
  {
    BlankFront(lines, []);
    assert lines + [] == lines;
  }
}
