// Session notes as Markdown: the printer and what the importer reads back from a text.

module NotesMd {
  import opened Outlines
  import opened Sorting
  import opened Text

  // ---- headings ----

  function Hashes(line: string): (n: nat)
    ensures n <= |line|
  {
    if line != "" && line[0] == '#' then 1 + Hashes(line[1..]) else 0
  }

  /** `/^#{1,6} /` */
  predicate IsMark(line: string) {
    var n := Hashes(line);
    1 <= n <= 6 && n < |line| && line[n] == ' '
  }

  /** The characters `.` of a regular expression does not match. */
  predicate IsBreak(c: char) {
    c == '\n' || c == '\r' || c == '\U{2028}' || c == '\U{2029}'
  }

  function UpToBreak(s: string): string {
    if s == "" || IsBreak(s[0]) then "" else [s[0]] + UpToBreak(s[1..])
  }

  function HeadingText(line: string): string
    requires IsMark(line)
  {
    UpToBreak(line[Hashes(line) + 1..])
  }

  /** `/^(#{1,6}) (.+)/` */
  predicate IsHeading(line: string) {
    IsMark(line) && HeadingText(line) != ""
  }

  // ---- printing ----

  function Repeat(c: char, n: nat): string {
    if n == 0 then "" else [c] + Repeat(c, n - 1)
  }

  function BodyLines(body: string): seq<string> {
    if body == "" then [] else [""] + Split('\n', body) + [""]
  }

  function SectionLines(s: Section): seq<string> {
    [Repeat('#', s.depth) + " " + s.title] + BodyLines(s.body)
  }

  function Lines(secs: seq<Section>): seq<string> {
    if secs == [] then [] else SectionLines(secs[0]) + Lines(secs[1..])
  }

  /** The text of a tree whose roots stand at `depth`. */
  function Printed(nodes: seq<Note>, depth: nat): string {
    Join('\n', Lines(Sections(nodes, depth)))
  }

  function SectionsOfFirst(n: Note, depth: nat): seq<Section> {
    [Section(HeadingDepth(depth), ShownTitle(n.title), Trim(n.body))] + Sections(n.ch, depth + 1)
  }

  lemma SectionsOfCons(nodes: seq<Note>, depth: nat)
    requires nodes != []
    ensures Sections(nodes, depth) == SectionsOfFirst(nodes[0], depth) + Sections(nodes[1..], depth)
  {
  }

  /** Anything that renders a list element by element renders a concatenation part by part. */
  lemma {:induction false} RenderAppend<T(!new), U>(render: seq<T> -> seq<U>, one: T -> seq<U>, a: seq<T>, b: seq<T>)
    requires render([]) == [] && forall xs :: xs != [] ==> render(xs) == one(xs[0]) + render(xs[1..])
    ensures render(a + b) == render(a) + render(b)
  {
    if a == [] {
      assert a + b == b;
    } else {
      RenderAppend(render, one, a[1..], b);
      assert (a + b)[0] == a[0] && (a + b)[1..] == a[1..] + b;
      AppendAssoc(one(a[0]), render(a[1..]), render(b));
    }
  }

  lemma SectionsAppend(a: seq<Note>, b: seq<Note>, depth: nat)
    ensures Sections(a + b, depth) == Sections(a, depth) + Sections(b, depth)
  {
    var render, one := (nodes: seq<Note>) => Sections(nodes, depth), (n: Note) => SectionsOfFirst(n, depth);
    forall nodes: seq<Note> | nodes != [] ensures render(nodes) == one(nodes[0]) + render(nodes[1..]) {
      SectionsOfCons(nodes, depth);
    }
    RenderAppend(render, one, a, b);
  }

  lemma LinesAppend(a: seq<Section>, b: seq<Section>)
    ensures Lines(a + b) == Lines(a) + Lines(b)
  {
    RenderAppend(Lines, SectionLines, a, b);
  }

  /** An element that is itself a joined text may stand for its lines. */
  lemma JoinNested(out: seq<string>, lines: seq<string>, more: seq<string>)
    requires more != [] && Join('\n', out) == Join('\n', lines) && (out == [] <==> lines == [])
    ensures Join('\n', out + [Join('\n', more)]) == Join('\n', lines + more)
  {
    JoinAppend('\n', out, [Join('\n', more)]);
    JoinAppend('\n', lines, more);
    if out == [] { assert out + [Join('\n', more)] == [Join('\n', more)] && lines + more == more; }
  }

  lemma JoinBody(body: string)
    requires body != ""
    ensures Join('\n', ["", body, ""]) == Join('\n', BodyLines(body))
  {
    JoinSplit('\n', body);
    JoinNested([""], [""], Split('\n', body));
    JoinNested([""] + [body], [""] + Split('\n', body), [""]);
    assert [""] + [body] + [""] == ["", body, ""];
  }

  /** What one round of the loop over the nodes adds. */
  lemma LinesOfNext(nodes: seq<Note>, i: nat, depth: nat)
    requires i < |nodes|
    ensures Lines(Sections(nodes[..i + 1], depth))
         == Lines(Sections(nodes[..i], depth))
            + ([Repeat('#', HeadingDepth(depth)) + " " + ShownTitle(nodes[i].title)] + BodyLines(Trim(nodes[i].body)))
            + Lines(Sections(nodes[i].ch, depth + 1))
  {
    var front, n := nodes[..i], nodes[i];
    assert nodes[..i + 1] == front + [n];
    SectionsAppend(front, [n], depth);
    LinesAppend(Sections(front, depth), Sections([n], depth));
    var head := Section(HeadingDepth(depth), ShownTitle(n.title), Trim(n.body));
    var children := Sections(n.ch, depth + 1);
    assert Sections([n], depth) == [head] + children;
    LinesAppend([head], children);
    assert Lines([head]) == SectionLines(head);
  }

  lemma AppendNothing(lines: seq<string>)
    ensures lines + [] == lines
  {
  }

  method TreeToMd(nodes: seq<Note>, depth: nat) returns (md: string)
    ensures md == Printed(nodes, depth)
    decreases nodes
  {
    var out: seq<string> := [];
    var prefix := Repeat('#', HeadingDepth(depth)) + " ";
    for i := 0 to |nodes|
      invariant Join('\n', out) == Printed(nodes[..i], depth)
      invariant out == [] <==> Lines(Sections(nodes[..i], depth)) == []
    {
      ghost var before := Lines(Sections(nodes[..i], depth));
      LinesOfNext(nodes, i, depth);
      out := PushHeading(out, before, prefix + ShownTitle(nodes[i].title), Trim(nodes[i].body));
      if nodes[i].ch != [] {
        var below := TreeToMd(nodes[i].ch, depth + 1);
        JoinNested(out, before + ([prefix + ShownTitle(nodes[i].title)] + BodyLines(Trim(nodes[i].body))),
                   Lines(Sections(nodes[i].ch, depth + 1)));
        out := out + [below];
      } else {
        assert Sections(nodes[i].ch, depth + 1) == [];
        AppendNothing(before + ([prefix + ShownTitle(nodes[i].title)] + BodyLines(Trim(nodes[i].body))));
      }
    }
    assert nodes[..|nodes|] == nodes;
    md := Join('\n', out);
  }

  method PushHeading(out: seq<string>, ghost lines: seq<string>, heading: string, body: string) returns (r: seq<string>)
    requires Join('\n', out) == Join('\n', lines) && (out == [] <==> lines == [])
    ensures r != [] && Join('\n', r) == Join('\n', lines + ([heading] + BodyLines(body)))
  {
    JoinNested(out, lines, [heading]);
    r := out + [heading];
    if body == "" {
      assert [heading] + BodyLines(body) == [heading];
    } else {
      JoinBody(body);
      JoinAppend('\n', r, ["", body, ""]);
      JoinAppend('\n', lines + [heading], BodyLines(body));
      AppendAssoc(lines, [heading], BodyLines(body));
      r := r + ["", body, ""];
    }
  }

  // ---- scanning ----

  /** How many lines come before the next heading mark. */
  function BodyLength(lines: seq<string>): (n: nat)
    ensures n <= |lines|
  {
    if lines == [] || IsMark(lines[0]) then 0 else 1 + BodyLength(lines[1..])
  }

  predicate Blank(line: string) {
    Trim(line) == ""
  }

  function StripStart(lines: seq<string>): seq<string> {
    if lines != [] && Blank(lines[0]) then StripStart(lines[1..]) else lines
  }

  function StripEnd(lines: seq<string>): seq<string> {
    if lines != [] && Blank(lines[|lines| - 1]) then StripEnd(lines[..|lines| - 1]) else lines
  }

  function BodyOf(lines: seq<string>): string {
    Join('\n', StripEnd(StripStart(lines)))
  }

  /** The sections of a text; lines that are in no section's body are dropped. */
  function Scan(lines: seq<string>): seq<Section> {
    if lines == [] then []
    else if !IsHeading(lines[0]) then Scan(lines[1..])
    else
      var n := BodyLength(lines[1..]);
      [Section(Hashes(lines[0]), Trim(HeadingText(lines[0])), BodyOf(lines[1..][..n]))] + Scan(lines[1..][n..])
  }

  /** What the importer makes of a text. */
  function Parsed(text: string): seq<Note> {
    Forest(Scan(Split('\n', text)))
  }

  // ---- scanning what was printed ----

  predicate SingleLine(s: string) {
    forall c :: c in s ==> !IsBreak(c)
  }

  predicate HeadingFree(body: string) {
    forall line :: line in Split('\n', body) ==> !IsMark(line)
  }

  ghost predicate Printable(s: Section) {
    1 <= s.depth <= 6 && s.title != "" && Trimmed(s.title) && SingleLine(s.title) && Trimmed(s.body) && HeadingFree(s.body)
  }

  lemma {:induction false} HashesOfRepeat(n: nat, rest: string)
    requires rest == "" || rest[0] != '#'
    ensures |Repeat('#', n)| == n && Hashes(Repeat('#', n) + rest) == n
  {
    if n == 0 {
      assert Repeat('#', n) + rest == rest;
    } else {
      HashesOfRepeat(n - 1, rest);
      assert (Repeat('#', n) + rest)[1..] == Repeat('#', n - 1) + rest;
    }
  }

  lemma {:induction false} UpToBreakAll(s: string)
    requires SingleLine(s)
    ensures UpToBreak(s) == s
  {
    if s != "" {
      assert s[0] in s;
      UpToBreakAll(s[1..]);
    }
  }

  lemma HeadingReadsBack(depth: nat, title: string)
    requires 1 <= depth <= 6 && title != "" && SingleLine(title)
    ensures var line := Repeat('#', depth) + " " + title;
      Hashes(line) == depth && IsHeading(line) && HeadingText(line) == title
  {
    var line := Repeat('#', depth) + " " + title;
    assert line == Repeat('#', depth) + (" " + title);
    HashesOfRepeat(depth, " " + title);
    assert line[depth] == ' ' && line[depth + 1..] == title;
    UpToBreakAll(title);
  }

  lemma {:induction false} TrimRightKeeps(s: string, i: nat)
    requires i < |s| && !IsSpace(s[i])
    ensures i < |StripRight(IsSpace, s)|
  {
    if IsSpace(s[|s| - 1]) { TrimRightKeeps(s[..|s| - 1], i); }
  }

  lemma {:induction false} NotBlank(s: string, i: nat)
    requires i < |s| && !IsSpace(s[i])
    ensures !Blank(s)
  {
    if IsSpace(s[0]) {
      NotBlank(s[1..], i - 1);
    } else {
      TrimRightKeeps(s, 0);
    }
  }

  lemma FirstLineNotBlank(body: string)
    requires body != "" && !IsSpace(body[0])
    ensures !Blank(Split('\n', body)[0])
  {
    var i := IndexOf(body, '\n');
    assert i > 0;
    assert body[..i][0] == body[0];
    NotBlank(body[..i], 0);
    assert Split('\n', body)[0] == body[..i];
  }

  lemma {:induction false} LastPartEnds(sep: char, text: string)
    requires text != "" && text[|text| - 1] != sep
    ensures var ls := Split(sep, text);
      ls != [] && ls[|ls| - 1] != "" && ls[|ls| - 1][|ls[|ls| - 1]| - 1] == text[|text| - 1]
    decreases |text|
  {
    var i := IndexOf(text, sep);
    if i < |text| {
      var rest := text[i + 1..];
      assert i + 1 < |text| && rest[|rest| - 1] == text[|text| - 1];
      LastPartEnds(sep, rest);
      var tail := Split(sep, rest);
      assert Split(sep, text) == [text[..i]] + tail;
      assert ([text[..i]] + tail)[|tail|] == tail[|tail| - 1];
    } else {
      assert Split(sep, text) == [text];
    }
  }

  lemma LastLineNotBlank(body: string)
    requires body != "" && !IsSpace(body[|body| - 1])
    ensures var ls := Split('\n', body); ls != [] && !Blank(ls[|ls| - 1])
  {
    LastPartEnds('\n', body);
    var ls := Split('\n', body);
    NotBlank(ls[|ls| - 1], |ls[|ls| - 1]| - 1);
  }

  lemma BodyReadsBack(body: string)
    requires Trimmed(body)
    ensures BodyOf(BodyLines(body)) == body
  {
    if body != "" {
      FirstLineNotBlank(body);
      LastLineNotBlank(body);
      JoinSplit('\n', body);
      StripPadding(Split('\n', body));
    }
  }

  lemma StripPadding(ls: seq<string>)
    requires ls != [] && !Blank(ls[0]) && !Blank(ls[|ls| - 1])
    ensures StripEnd(StripStart([""] + ls + [""])) == ls
  {
    assert ([""] + ls + [""])[1..] == ls + [""];
    assert StripStart([""] + ls + [""]) == StripStart(ls + [""]) == ls + [""];
    assert (ls + [""])[..|ls|] == ls;
  }

  lemma {:induction false} BodyLengthOfAppend(a: seq<string>, b: seq<string>)
    requires (forall line :: line in a ==> !IsMark(line)) && (b == [] || IsMark(b[0]))
    ensures BodyLength(a + b) == |a|
  {
    if a == [] {
      assert a + b == b;
    } else {
      assert a[0] in a;
      BodyLengthOfAppend(a[1..], b);
      assert (a + b)[1..] == a[1..] + b;
    }
  }

  lemma LinesStartWithMark(secs: seq<Section>)
    requires forall s :: s in secs ==> Printable(s)
    ensures Lines(secs) == [] || IsMark(Lines(secs)[0])
  {
    if secs != [] {
      assert secs[0] in secs;
      HeadingReadsBack(secs[0].depth, secs[0].title);
    }
  }

  lemma ScanHeading(line: string, body: seq<string>, rest: seq<string>)
    requires IsHeading(line) && (forall l :: l in body ==> !IsMark(l)) && (rest == [] || IsMark(rest[0]))
    ensures Scan([line] + body + rest) == [Section(Hashes(line), Trim(HeadingText(line)), BodyOf(body))] + Scan(rest)
  {
    assert ([line] + body + rest)[1..] == body + rest;
    BodyLengthOfAppend(body, rest);
    assert (body + rest)[..|body|] == body && (body + rest)[|body|..] == rest;
  }

  lemma ScanStep(s: Section, rest: seq<string>)
    requires Printable(s) && (rest == [] || IsMark(rest[0]))
    ensures Scan(SectionLines(s) + rest) == [s] + Scan(rest)
  {
    HeadingReadsBack(s.depth, s.title);
    ScanHeading(Repeat('#', s.depth) + " " + s.title, BodyLines(s.body), rest);
    BodyReadsBack(s.body);
  }

  /** Scanning printed sections gives them back. */
  lemma {:induction false} ScanOfLines(secs: seq<Section>)
    requires forall s :: s in secs ==> Printable(s)
    ensures Scan(Lines(secs)) == secs
  {
    if secs != [] {
      assert secs[0] in secs;
      ScanOfLines(secs[1..]);
      LinesStartWithMark(secs[1..]);
      ScanStep(secs[0], Lines(secs[1..]));
    }
  }

  lemma RepeatFree(n: nat)
    ensures forall c :: c in Repeat('#', n) ==> c == '#'
  {
  }

  lemma {:induction false} LinesHaveNoNewline(secs: seq<Section>)
    requires forall s :: s in secs ==> Printable(s)
    ensures forall line :: line in Lines(secs) ==> '\n' !in line
  {
    if secs != [] {
      assert secs[0] in secs;
      RepeatFree(secs[0].depth);
      JoinSplit('\n', secs[0].body);
      LinesHaveNoNewline(secs[1..]);
    }
  }

  lemma ScanOfText(secs: seq<Section>)
    requires forall s :: s in secs ==> Printable(s)
    ensures Scan(Split('\n', Join('\n', Lines(secs)))) == secs
  {
    ScanOfLines(secs);
    LinesHaveNoNewline(secs);
    if secs != [] {
      SplitJoin('\n', Lines(secs));
    } else {
      assert Split('\n', "") == [""] && !IsHeading("");
    }
  }

  // ---- whole trees ----

  /** Trimmed single-line titles and, once trimmed, bodies without heading marks. */
  ghost predicate Presentable(nodes: seq<Note>) {
    forall n :: n in nodes ==> Trimmed(n.title) && SingleLine(n.title) && HeadingFree(Trim(n.body)) && Presentable(n.ch)
  }

  lemma {:induction false} SectionsPrintable(nodes: seq<Note>, depth: nat)
    requires Presentable(nodes)
    ensures forall s :: s in Sections(nodes, depth) ==> Printable(s)
  {
    if nodes != [] {
      assert nodes[0] in nodes;
      SectionsPrintable(nodes[0].ch, depth + 1);
      SectionsPrintable(nodes[1..], depth);
    }
  }

  /** Exporting and importing returns the tree exactly when it has at most four levels. */
  lemma ImportOfExport(nodes: seq<Note>)
    requires Presentable(nodes) && Tidy(nodes)
    ensures Parsed(Printed(nodes, 2)) == nodes <==> Height(nodes) <= 4
  {
    SectionsPrintable(nodes, 2);
    ScanOfText(Sections(nodes, 2));
    FourLevelsSurvive(nodes);
  }

  /** Exporting, importing and exporting again gives the first text, whatever the height. */
  lemma ExportIsStable(nodes: seq<Note>)
    requires Presentable(nodes)
    ensures Printed(Parsed(Printed(nodes, 2)), 2) == Printed(nodes, 2)
  {
    var secs := Sections(nodes, 2);
    SectionsPrintable(nodes, 2);
    ScanOfText(secs);
    SectionsGapless(nodes, 2);
    assert TidySections(secs);
    GaplessIffStable(secs, 2);
  }
}
