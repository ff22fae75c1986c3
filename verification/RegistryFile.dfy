// From the text of a registry file to its data, and back.

module RegistryFile {
  import opened JsonValues
  import opened RegistryBlocks
  import opened RegistryLines
  import opened RegistryText
  import opened Sorting
  import opened Text

  // ---- reading raw lines ----

  predicate IsNewline(c: char) {
    c == '\n'
  }

  /** `line.split(" #", 1)[0].rstrip("\n")` */
  function WithoutComment(raw: string): string {
    StripRight(IsNewline, Before(raw, " #"))
  }

  /** Neither blank nor a comment. */
  predicate HasContent(s: string) {
    PyStrip(s) != "" && PyStrip(s)[0] != '#'
  }

  function IndentOf(s: string): nat {
    if s != "" && s[0] == ' ' then 1 + IndentOf(s[1..]) else 0
  }

  function LineOf(s: string): Line {
    Line(IndentOf(s), PyStrip(s))
  }

  /** The line a raw one gives, if any. */
  function KeepLine(raw: string): seq<Line> {
    var s := WithoutComment(raw);
    if HasContent(s) then [LineOf(s)] else []
  }

  function LinesOf(keep: string -> seq<Line>, raw: seq<string>): seq<Line> {
    if raw == [] then [] else LinesOf(keep, raw[..|raw| - 1]) + keep(raw[|raw| - 1])
  }

  /** `parsed or {}` */
  function OrEmptyObject(v: Json): Json {
    if v == Null || v == Arr([]) then Obj(map[]) else v
  }

  /** What the text of a file stands for. */
  function Loaded(text: string): Json {
    OrEmptyObject(Read(SYNTAX, 0, LinesOf(KeepLine, FileLines(text)), NOTHING).0)
  }

  method ParseRegistry(text: string) returns (v: Json)
    ensures v == Loaded(text)
  {
    var raw := FileLines(text);
    var lines: seq<Line> := [];
    for i := 0 to |raw|
      invariant lines == LinesOf(KeepLine, raw[..i])
    {
      assert raw[..i + 1][..i] == raw[..i];
      var s := WithoutComment(raw[i]);
      if HasContent(s) { lines := lines + [LineOf(s)]; }
    }
    assert raw[..|raw|] == raw && lines[0..] == lines;
    var parsed, _ := ParseBlock(SYNTAX, lines, 0, 0);
    v := OrEmptyObject(parsed);
  }

  // ---- writing raw lines ----

  function Blanks(n: nat): string {
    if n == 0 then "" else " " + Blanks(n - 1)
  }

  function RawOf(l: Line): string {
    Blanks(l.indent) + (l.text + "\n")
  }

  function RawLines(write: Line -> string, ls: seq<Line>): seq<string> {
    if ls == [] then [] else RawLines(write, ls[..|ls| - 1]) + [write(ls[|ls| - 1])]
  }

  ghost predicate TextFits(s: string) {
    s != "" && Stripped(IsPySpace, s) && s[0] != '#' && !HasComment(s) && Unbroken(s)
  }

  lemma StartsComment(s: string)
    ensures " #" <= s <==> |s| >= 2 && s[0] == ' ' && s[1] == '#'
  {
    if |s| >= 2 { assert s[..2] == [s[0], s[1]]; }
  }

  lemma {:induction false} NothingToCut(s: string)
    requires !HasComment(s)
    ensures Before(s, " #") == s
  {
    if s != "" {
      StartsComment(s);
      forall i | 0 <= i < |s| - 2 ensures !(s[1..][i] == ' ' && s[1..][i + 1] == '#') {
        assert s[1..][i] == s[i + 1] && s[1..][i + 1] == s[i + 2];
      }
      NothingToCut(s[1..]);
    }
  }

  lemma {:induction false} BlanksAreBlank(n: nat, s: string)
    requires s != "" && !IsPySpace(s[0])
    ensures |Blanks(n)| == n && (forall c :: c in Blanks(n) ==> c == ' ')
    ensures IndentOf(Blanks(n) + s) == n && StripLeft(IsPySpace, Blanks(n) + s) == s
  {
    if n == 0 {
      assert Blanks(n) + s == s;
    } else {
      BlanksAreBlank(n - 1, s);
      assert (Blanks(n) + s)[0] == ' ' && (Blanks(n) + s)[1..] == Blanks(n - 1) + s;
    }
  }

  lemma NoCommentInRaw(n: nat, text: string)
    requires TextFits(text) && |Blanks(n)| == n && forall c :: c in Blanks(n) ==> c == ' '
    ensures !HasComment(Blanks(n) + (text + "\n"))
  {
    var s := Blanks(n) + (text + "\n");
    forall i | 0 <= i < |s| - 1 ensures !(s[i] == ' ' && s[i + 1] == '#') {
      if i + 1 < n {
        assert s[i + 1] == Blanks(n)[i + 1] && Blanks(n)[i + 1] in Blanks(n);
      } else if i + 1 == n {
        assert s[i + 1] == text[0];
      } else if i + 1 < n + |text| {
        assert s[i] == text[i - n] && s[i + 1] == text[i - n + 1];
      }
    }
  }

  lemma CutsNewline(s: string, n: nat, text: string)
    requires text != "" && !IsPySpace(text[|text| - 1]) && s == Blanks(n) + text
    ensures StripRight(IsNewline, s + "\n") == s
  {
    assert (s + "\n")[..|s|] == s;
  }

  lemma LineOfIndented(n: nat, text: string)
    requires TextFits(text)
    ensures HasContent(Blanks(n) + text) && LineOf(Blanks(n) + text) == Line(n, text)
  {
    BlanksAreBlank(n, text);
    assert StripRight(IsPySpace, text) == text;
  }

  /** A written line is read back with its indent and text. */
  lemma RawReadsBack(l: Line)
    requires TextFits(l.text)
    ensures KeepLine(RawOf(l)) == [l]
  {
    var s := Blanks(l.indent) + l.text;
    BlanksAreBlank(l.indent, l.text);
    NoCommentInRaw(l.indent, l.text);
    NothingToCut(RawOf(l));
    assert RawOf(l) == s + "\n";
    CutsNewline(s, l.indent, l.text);
    LineOfIndented(l.indent, l.text);
  }

  lemma {:induction false} LinesReadBack(keep: string -> seq<Line>, write: Line -> string, ls: seq<Line>)
    requires forall l :: l in ls ==> keep(write(l)) == [l]
    ensures LinesOf(keep, RawLines(write, ls)) == ls
  {
    if ls != [] {
      var init, last := ls[..|ls| - 1], ls[|ls| - 1];
      assert ls == init + [last];
      LinesReadBack(keep, write, init);
      assert RawLines(write, ls)[..|RawLines(write, ls)| - 1] == RawLines(write, init);
    }
  }

  // ---- every line of a printed registry fits ----

  ghost predicate LinesFit(ls: seq<Line>) {
    forall l :: l in ls ==> TextFits(l.text)
  }

  /** The printer's single lines fit. */
  ghost predicate PrintsFit(p: Printer, x: Limits) {
    && (forall k, v :: x.key(k) && x.scalar(v) ==> TextFits(p.field(k, p.show(v))) && TextFits(p.itemField(k, p.show(v))))
    && (forall k, vs :: x.key(k) && x.inline(vs) ==> TextFits(p.field(k, p.showInline(vs))))
    && (forall k :: x.key(k) ==> TextFits(p.header(k)))
    && (forall v :: x.scalar(v) ==> TextFits(p.item(p.show(v))))
  }

  lemma {:induction false} ItemsFit(p: Printer, x: Limits, n: nat, vs: seq<Json>)
    requires PrintsFit(p, x) && forall v :: v in vs ==> x.scalar(v)
    ensures LinesFit(ItemLines(p, n, vs))
  {
    if vs != [] {
      assert vs[0] in vs;
      ItemsFit(p, x, n, vs[1..]);
    }
  }

  lemma {:induction false} EntryFits(p: Printer, x: Limits, n: nat, e: Entry)
    requires PrintsFit(p, x) && x.key(e.key) && Fits(x, e.doc)
    ensures LinesFit(EntryLines(p, n, e))
    decreases e, 1
  {
    match e.doc
    case Scalar(v) =>
    case Inline(vs) =>
    case Block(vs) => ItemsFit(p, x, n + 2, vs);
    case Mapping(fields) => MappingFits(p, x, n + 2, fields);
    case Records(records) => RecordLinesFit(p, x, n + 2, records);
  }

  lemma {:induction false} MappingFits(p: Printer, x: Limits, n: nat, fields: seq<Entry>)
    requires PrintsFit(p, x) && AllFit(x, fields)
    ensures LinesFit(MappingLines(p, n, fields))
    decreases fields, 0
  {
    if fields != [] {
      EntryFits(p, x, n, fields[0]);
      MappingFits(p, x, n, fields[1..]);
    }
  }

  lemma {:induction false} RecordLinesFit(p: Printer, x: Limits, n: nat, records: seq<Record>)
    requires PrintsFit(p, x) && RecordsFit(x, records)
    ensures LinesFit(RecordsLines(p, n, records))
    decreases records, 0
  {
    if records != [] {
      RecordFits(p, x, n, records[0]);
      RecordLinesFit(p, x, n, records[1..]);
    }
  }

  lemma {:induction false} RecordFits(p: Printer, x: Limits, n: nat, r: Record)
    requires PrintsFit(p, x) && x.key(r.key) && x.scalar(r.v) && AllFit(x, r.fields)
    ensures LinesFit(RecordLines(p, n, r))
    decreases r, 1
  {
    MappingFits(p, x, n + 2, r.fields);
  }

  // ---- the printer of the registries ----

  lemma CommentFree(a: string, b: string)
    requires !HasComment(a) && !HasComment(b)
    requires !(a != "" && a[|a| - 1] == ' ' && b != "" && b[0] == '#')
    ensures !HasComment(a + b)
  {
    var s := a + b;
    forall i | 0 <= i < |s| - 1 ensures !(s[i] == ' ' && s[i + 1] == '#') {
      if i + 1 < |a| {
        assert s[i] == a[i] && s[i + 1] == a[i + 1];
      } else if i >= |a| {
        assert s[i] == b[i - |a|] && s[i + 1] == b[i - |a| + 1];
      }
    }
  }

  lemma PlainFits(s: string)
    requires IsPlain(s)
    ensures TextFits(s)
  {
    PlainIsStripped(s);
    assert s[0] in s;
    assert forall i :: 0 <= i < |s| ==> s[i] in s;
  }

  lemma ShowFits(v: Json)
    requires FitsLine(v)
    ensures TextFits(Show(v))
  {
    match v
    case Str(s) =>
      if IsWord(s) {
        PlainFits(s);
      } else {
        CommentFree("\"", s);
        CommentFree("\"" + s, "\"");
      }
    case Int(n) =>
      NumberIsPlain(n);
      PlainFits(DecimalInt(n));
    case Bool(b) => PlainFits(Show(v));
    case _ => PlainFits("null");
  }

  lemma {:induction false} JoinFits(vs: seq<Json>)
    requires vs != [] && FitsInlineList(vs)
    ensures TextFits(JoinCommas(ShowAll(vs)))
  {
    assert vs[0] in vs;
    ShowFits(vs[0]);
    ShowsAreParts(vs);
    JoinIsStripped(ShowAll(vs));
    if |vs| > 1 {
      JoinFits(vs[1..]);
      var rest := JoinCommas(ShowAll(vs[1..]));
      CommentFree(", ", rest);
      CommentFree(Show(vs[0]), ", " + rest);
    } else {
      assert ShowAll(vs) == [Show(vs[0])];
    }
  }

  lemma InlineFits(vs: seq<Json>)
    requires FitsInlineList(vs)
    ensures TextFits(ShowInline(vs))
  {
    var inner := JoinCommas(ShowAll(vs));
    if vs != [] { JoinFits(vs); }
    CommentFree("[", inner);
    CommentFree("[" + inner, "]");
    ShownInline(vs);
  }

  lemma PrefixFits(prefix: string, s: string)
    requires prefix != "" && !IsPySpace(prefix[0]) && prefix[0] != '#' && !HasComment(prefix) && Unbroken(prefix) && TextFits(s)
    ensures TextFits(prefix + s)
  {
    CommentFree(prefix, s);
  }

  lemma FieldFits(key: string, shown: string)
    requires IsPlain(key) && TextFits(shown)
    ensures TextFits(FieldText(key, shown)) && TextFits(ItemText(FieldText(key, shown)))
  {
    PlainFits(key);
    PrefixFits(": ", shown);
    PrefixFits(key, ": " + shown);
    PrefixFits("- ", FieldText(key, shown));
  }

  lemma PrinterFits()
    ensures PrintsFit(PRINTER, LIMITS)
  {
    forall k, v | IsPlain(k) && FitsLine(v)
      ensures TextFits(FieldText(k, Show(v))) && TextFits(ItemText(FieldText(k, Show(v))))
    {
      ShowFits(v);
      FieldFits(k, Show(v));
    }
    forall k, vs | IsPlain(k) && FitsInlineList(vs) ensures TextFits(FieldText(k, ShowInline(vs))) {
      InlineFits(vs);
      FieldFits(k, ShowInline(vs));
    }
    forall k | IsPlain(k) ensures TextFits(HeaderText(k)) {
      PlainFits(k);
      PrefixFits(k, ":");
    }
    forall v | FitsLine(v) ensures TextFits(ItemText(Show(v))) {
      ShowFits(v);
      PrefixFits("- ", Show(v));
    }
  }

  /** The text a registry is printed to. */
  function PrintRegistry(fields: seq<Entry>): string {
    FileText(RawLines(RawOf, MappingLines(PRINTER, 0, fields)))
  }

  lemma RawIsLine(l: Line)
    requires TextFits(l.text)
    ensures IsLine(RawOf(l))
  {
    BlanksAreBlank(l.indent, l.text);
    var body := Blanks(l.indent) + l.text;
    assert RawOf(l) == body + "\n" && RawOf(l)[..|body|] == body;
  }

  lemma {:induction false} RawAreLines(write: Line -> string, ls: seq<Line>)
    requires forall l :: l in ls ==> IsLine(write(l))
    ensures forall raw :: raw in RawLines(write, ls) ==> IsLine(raw)
  {
    if ls != [] {
      RawAreLines(write, ls[..|ls| - 1]);
      assert ls[|ls| - 1] in ls;
    }
  }

  lemma PrintedLines(fields: seq<Entry>)
    requires AllFit(LIMITS, fields)
    ensures LinesOf(KeepLine, FileLines(PrintRegistry(fields))) == MappingLines(PRINTER, 0, fields)
  {
    PrinterFits();
    MappingFits(PRINTER, LIMITS, 0, fields);
    var ls := MappingLines(PRINTER, 0, fields);
    forall l | l in ls ensures KeepLine(RawOf(l)) == [l] && IsLine(RawOf(l)) {
      RawReadsBack(l);
      RawIsLine(l);
    }
    RawAreLines(RawOf, ls);
    FileReadsBack(RawLines(RawOf, ls));
    LinesReadBack(KeepLine, RawOf, ls);
  }

  /** Printing a registry with two blanks a level and parsing the file returns its data. */
  lemma RegistryRoundTrip(fields: seq<Entry>)
    requires AllFit(LIMITS, fields) && fields != []
    ensures Loaded(PrintRegistry(fields)) == Data(Mapping(fields))
  {
    PrintedLines(fields);
    PrinterIsFaithful();
    RegistryReadsBack(SYNTAX, PRINTER, LIMITS, fields);
  }

  // ---- strings that look like comments ----

  lemma {:induction false} CutStopsInside(a: string, s: string, rest: string)
    requires !HasComment(a) && HasComment(s) && a != "" && a[|a| - 1] != ' '
    ensures var cut := Before(a + (s + rest), " #"); a <= cut && |cut| <= |a| + |s| - 2
    decreases |a|
  {
    var whole := a + (s + rest);
    StartsComment(whole);
    if |a| == 1 {
      assert whole[1..] == s + rest;
      CutStops(s, rest);
      assert whole[0] == a[0] && a[..1] == a;
    } else {
      assert whole[0] == a[0] && whole[1] == a[1] && whole[1..] == a[1..] + (s + rest);
      forall i | 0 <= i < |a| - 2 ensures !(a[1..][i] == ' ' && a[1..][i + 1] == '#') {
        assert a[1..][i] == a[i + 1] && a[1..][i + 1] == a[i + 2];
      }
      CutStopsInside(a[1..], s, rest);
      assert a == [a[0]] + a[1..];
    }
  }

  lemma {:induction false} CutStops(s: string, rest: string)
    requires HasComment(s)
    ensures |Before(s + rest, " #")| <= |s| - 2
  {
    StartsComment(s + rest);
    if !(" #" <= s + rest) {
      var i :| 0 <= i < |s| - 1 && s[i] == ' ' && s[i + 1] == '#';
      assert s[1..][i - 1] == s[i] && s[1..][i] == s[i + 1];
      CutStops(s[1..], rest);
      assert (s + rest)[1..] == s[1..] + rest;
    }
  }

  lemma ShowsNoLonger(text: string)
    ensures ParseScalar(text).Str? ==> |ParseScalar(text).s| <= |text|
  {
    StripShortens(IsPySpace, text);
  }

  lemma StripKeepsFront(s: string, k: nat)
    requires k < |s| && !IsPySpace(s[0]) && !IsPySpace(s[k])
    ensures s[..k + 1] <= PyStrip(s) <= s
  {
    assert StripLeft(IsPySpace, s) == s;
    StripRightKeeps(s, k);
  }

  lemma {:induction false} StripRightKeeps(s: string, k: nat)
    requires k < |s| && !IsPySpace(s[k])
    ensures k < |StripRight(IsPySpace, s)|
  {
    if IsPySpace(s[|s| - 1]) { StripRightKeeps(s[..|s| - 1], k); }
  }

  lemma {:induction false} NewlinesKeepFront(s: string, k: nat)
    requires k < |s| && !IsNewline(s[k])
    ensures s[..k + 1] <= StripRight(IsNewline, s)
  {
    if IsNewline(s[|s| - 1]) {
      NewlinesKeepFront(s[..|s| - 1], k);
      assert s[..|s| - 1][..k + 1] == s[..k + 1];
    }
  }

  /** What is left of a quoted value whose text was cut. */
  lemma CutField(key: string, left: string)
    requires IsPlain(key) && left != "" && left[0] == '"' && Stripped(IsPySpace, left)
    ensures Read(SYNTAX, 0, [Line(0, FieldText(key, left))], NOTHING) == (Obj(map[key := ParseScalar(left)]), [])
  {
    ShapeOfField(key, left);
    assert [Line(0, FieldText(key, left))] + [] == [Line(0, FieldText(key, left))];
    ReadsText(SYNTAX, 0, FieldText(key, left), key, left, NOTHING, []);
  }

  /** Cutting keeps the key, the colon and the opening quote. */
  lemma CutKeepsFront(key: string, s: string) returns (body: string)
    requires IsPlain(key) && HasComment(s)
    ensures body == WithoutComment(RawOf(Line(0, FieldText(key, "\"" + s + "\""))))
    ensures key + ": \"" <= body && |body| <= |key| + 3 + |s| - 2
  {
    var front := key + ": \"";
    var raw := RawOf(Line(0, FieldText(key, "\"" + s + "\"")));
    assert raw == front + (s + "\"\n");
    PlainFits(key);
    CommentFree(key, ": \"");
    CutStopsInside(front, s, "\"\n");
    var cut := Before(raw, " #");
    assert cut[..|front|] == front && cut[|front| - 1] == '"';
    NewlinesKeepFront(cut, |front| - 1);
    body := StripRight(IsNewline, cut);
  }

  lemma CutLine(key: string, s: string) returns (left: string)
    requires IsPlain(key) && HasComment(s)
    ensures left != "" && left[0] == '"' && Stripped(IsPySpace, left) && |left| < |s|
    ensures KeepLine(RawOf(Line(0, FieldText(key, "\"" + s + "\"")))) == [Line(0, FieldText(key, left))]
  {
    var body := CutKeepsFront(key, s);
    left := LeftOfFront(key, body);
  }

  /** A cut line that still starts with the key and an opening quote. */
  lemma LeftOfFront(key: string, body: string) returns (left: string)
    requires IsPlain(key) && key + ": \"" <= body
    ensures left != "" && left[0] == '"' && Stripped(IsPySpace, left) && |left| <= |body| - |key| - 2
    ensures HasContent(body) && LineOf(body) == Line(0, FieldText(key, left))
  {
    var front := key + ": \"";
    FrontEnds(key);
    assert body[0] == front[0] && body[|front| - 1] == front[|front| - 1];
    StripKeepsFront(body, |front| - 1);
    var text := PyStrip(body);
    left := text[|front| - 1..];
    assert text[..|front|] == body[..|front|] == front;
    assert text == FieldText(key, left);
    assert left[0] == '"' && left[|left| - 1] == text[|text| - 1];
  }

  lemma FrontEnds(key: string)
    requires IsPlain(key)
    ensures var front := key + ": \""; front[0] == key[0] && front[|front| - 1] == '"' && !IsPySpace(key[0]) && key[0] != '#'
  {
    assert key[0] in key;
  }

  /** The text of a file with one scalar field. */
  function OneField(key: string, v: Json): string {
    PrintRegistry([Entry(key, Scalar(v))])
  }

  lemma OneRaw(write: Line -> string, line: Line)
    ensures RawLines(write, [line]) == [write(line)]
  {
    assert [line][..0] == [];
  }

  lemma OneKept(keep: string -> seq<Line>, raw: string)
    ensures LinesOf(keep, [raw]) == keep(raw)
  {
    assert [raw][..0] == [] && [] + keep(raw) == keep(raw);
  }

  lemma OneFieldText(key: string, v: Json)
    ensures OneField(key, v) == RawOf(Line(0, FieldText(key, Show(v))))
  {
    var line := Line(0, FieldText(key, Show(v)));
    OneRaw(RawOf, line);
    OneEntryLine(key, v);
    OneLineText(RawOf(line));
  }

  lemma OneLineText(raw: string)
    ensures FileText([raw]) == raw
  {
    assert [raw][1..] == [] && raw + "" == raw;
  }

  lemma OneLineFile(raw: string)
    requires IsLine(raw)
    ensures FileLines(raw) == [raw]
  {
    FileReadsBack([raw]);
    OneLineText(raw);
  }

  lemma LoadedOneLine(raw: string, ls: seq<Line>)
    requires IsLine(raw) && KeepLine(raw) == ls
    ensures Loaded(raw) == OrEmptyObject(Read(SYNTAX, 0, ls, NOTHING).0)
  {
    OneLineFile(raw);
    OneKept(KeepLine, raw);
  }

  lemma OneEntryLine(key: string, v: Json)
    ensures MappingLines(PRINTER, 0, [Entry(key, Scalar(v))]) == [Line(0, FieldText(key, Show(v)))]
  {
    var fields := [Entry(key, Scalar(v))];
    assert fields[1..] == [] && MappingLines(PRINTER, 0, fields[1..]) == [];
    assert EntryLines(PRINTER, 0, fields[0]) == [Line(0, FieldText(key, Show(v)))];
  }

  lemma StringFieldSurvives(key: string, s: string)
    requires IsPlain(key) && Unbroken(s) && !HasComment(s)
    ensures Loaded(OneField(key, Str(s))) == Obj(map[key := Str(s)])
  {
    var fields := [Entry(key, Scalar(Str(s)))];
    assert fields[1..] == [] && LIMITS.key(key) && LIMITS.scalar(Str(s));
    assert Fits(LIMITS, fields[0].doc);
    assert FieldData(map[], fields) == map[key := Str(s)];
    RegistryRoundTrip(fields);
  }

  lemma CommentIsNotPlain(s: string)
    requires HasComment(s)
    ensures ShowText(s) == "\"" + s + "\""
  {
    var i :| 0 <= i < |s| - 1 && s[i] == ' ' && s[i + 1] == '#';
    assert s[i] in s;
  }

  lemma UnindentedIsLine(text: string)
    requires Unbroken(text)
    ensures IsLine(RawOf(Line(0, text)))
  {
    assert RawOf(Line(0, text)) == text + "\n" && (text + "\n")[..|text|] == text;
  }

  lemma QuotedUnbroken(key: string, s: string)
    requires IsPlain(key) && Unbroken(s)
    ensures Unbroken(FieldText(key, "\"" + s + "\""))
  {
    PlainFits(key);
  }

  lemma QuotedFile(key: string, s: string)
    requires IsPlain(key) && Unbroken(s) && HasComment(s)
    ensures var raw := RawOf(Line(0, FieldText(key, "\"" + s + "\""))); OneField(key, Str(s)) == raw && IsLine(raw)
  {
    CommentIsNotPlain(s);
    OneFieldText(key, Str(s));
    QuotedUnbroken(key, s);
    UnindentedIsLine(FieldText(key, "\"" + s + "\""));
  }

  lemma StringFieldCut(key: string, s: string)
    requires IsPlain(key) && Unbroken(s) && HasComment(s)
    ensures Loaded(OneField(key, Str(s))) != Obj(map[key := Str(s)])
  {
    QuotedFile(key, s);
    var left := CutLine(key, s);
    LoadedCut(OneField(key, Str(s)), key, left);
    OtherValue(key, left, s);
  }

  lemma LoadedCut(raw: string, key: string, left: string)
    requires IsPlain(key) && left != "" && left[0] == '"' && Stripped(IsPySpace, left)
    requires IsLine(raw) && KeepLine(raw) == [Line(0, FieldText(key, left))]
    ensures Loaded(raw) == Obj(map[key := ParseScalar(left)])
  {
    LoadedOneLine(raw, [Line(0, FieldText(key, left))]);
    CutField(key, left);
  }

  lemma OtherValue(key: string, left: string, s: string)
    requires |left| < |s|
    ensures Obj(map[key := ParseScalar(left)]) != Obj(map[key := Str(s)])
  {
    ShowsNoLonger(left);
    assert map[key := ParseScalar(left)][key] != map[key := Str(s)][key];
  }

  // ---- strings with a line break ----

  lemma {:induction false} BeforeIsPrefix(s: string, sub: string)
    ensures Before(s, sub) <= s
  {
    if s != "" && !(sub <= s) { BeforeIsPrefix(s[1..], sub); }
  }

  lemma KeptUnbroken(raw: string)
    requires IsLine(raw) || Unbroken(raw)
    ensures UnbrokenLines(KeepLine(raw))
  {
    BeforeIsPrefix(raw, " #");
    var s := WithoutComment(raw);
    assert s <= raw;
    assert Unbroken(s) by {
      if IsLine(raw) {
        assert s == "" || s[|s| - 1] != '\n';
        assert |s| < |raw| && s <= raw[..|raw| - 1];
      }
    }
    StripUnbroken(s);
  }

  lemma {:induction false} LinesUnbroken(raw: seq<string>)
    requires forall line :: line in raw ==> IsLine(line) || Unbroken(line)
    ensures UnbrokenLines(LinesOf(KeepLine, raw))
  {
    if raw != [] {
      assert raw[|raw| - 1] in raw;
      LinesUnbroken(raw[..|raw| - 1]);
      KeptUnbroken(raw[|raw| - 1]);
    }
  }

  /** No top-level field of any file is read as a string with a line break. */
  lemma LoadedUnbroken(text: string)
    ensures Loaded(text).Obj? ==> UnbrokenFields(Loaded(text).fields)
  {
    forall line | line in FileLines(text) ensures IsLine(line) || Unbroken(line) { ReadLinesUnbroken(text, line); }
    LinesUnbroken(FileLines(text));
    ReadUnbroken(0, LinesOf(KeepLine, FileLines(text)), NOTHING);
  }

  lemma BrokenFieldLost(key: string, s: string)
    requires !Unbroken(s)
    ensures Loaded(OneField(key, Str(s))) != Obj(map[key := Str(s)])
  {
    LoadedUnbroken(OneField(key, Str(s)));
    assert map[key := Str(s)][key] == Str(s);
  }

  /** A string field survives exactly when its text has no line break and no blank before a number sign. */
  lemma StringFieldSurvivesIff(key: string, s: string)
    requires IsPlain(key)
    ensures Loaded(OneField(key, Str(s))) == Obj(map[key := Str(s)]) <==> Unbroken(s) && !HasComment(s)
  {
    if !Unbroken(s) { BrokenFieldLost(key, s); }
    else if HasComment(s) { StringFieldCut(key, s); }
    else { StringFieldSurvives(key, s); }
  }

  lemma OpenQuoteIsText()
    ensures ParseScalar("\"a") == Str("\"a")
  {
    var s := "\"a";
    assert s[0] == '"' && s[1] == 'a' && Lower(s)[0] == '"';
    assert PyStrip(s) == s;
    assert "true"[0] == 't' && "yes"[0] == 'y' && "false"[0] == 'f' && "no"[0] == 'n' && "{}"[0] == '{' && "null"[0] == 'n';
  }

  lemma TwoLines(keep: string -> seq<Line>, a: string, b: string)
    ensures LinesOf(keep, [a, b]) == keep(a) + keep(b)
  {
    assert [a, b][..1] == [a];
    OneKept(keep, a);
  }

  /** A file whose first line is a field and whose second says nothing. */
  lemma FieldThenNoise(text: string, a: string, b: string, field: string, noise: string, key: string, shown: string)
    requires FileLines(text) == [a, b] && KeepLine(a) == [Line(0, field)] && KeepLine(b) == [Line(0, noise)]
    requires ShapeOf(field) == KeyField(key, shown) && PlainRest(shown) && ShapeOf(noise) == Noise
    ensures Loaded(text) == Obj(map[key := ParseScalar(shown)])
  {
    var f := WithField(NOTHING, key, ParseScalar(shown));
    var rest := [Line(0, noise)];
    TwoLines(KeepLine, a, b);
    ReadsText(SYNTAX, 0, field, key, shown, NOTHING, rest);
    assert rest[1..] == [] && SYNTAX.shape(rest[0].text) == Noise;
    assert Read(SYNTAX, 0, rest, f) == Read(SYNTAX, 0, rest[1..], f);
    BlockEnds(SYNTAX, 0, [], f);
  }

  lemma CarriageReturnText()
    ensures OneField("k", Str("a\rb")) == "k: \"a" + (['\r'] + "b\"\n")
  {
    var s := "a\rb";
    assert s[1] == '\r' && '\r' in s;
    OneFieldText("k", Str(s));
    assert RawOf(Line(0, FieldText("k", "\"" + s + "\""))) == "k: \"a" + (['\r'] + "b\"\n");
  }

  lemma CarriageReturnLines()
    ensures FileLines("k: \"a" + (['\r'] + "b\"\n")) == ["k: \"a\n", "b\"\n"]
  {
    FirstLineReadsBack("k: \"a", '\r', "b\"\n");
    assert "b\"\n"[..2] == "b\"";
    OneLineFile("b\"\n");
    assert "k: \"a" + "\n" == "k: \"a\n";
  }

  lemma CarriageReturnKept()
    ensures KeepLine("k: \"a\n") == [Line(0, "k: \"a")] && KeepLine("b\"\n") == [Line(0, "b\"")]
  {
    assert RawOf(Line(0, "k: \"a")) == "k: \"a\n" && RawOf(Line(0, "b\"")) == "b\"\n";
    RawReadsBack(Line(0, "k: \"a"));
    RawReadsBack(Line(0, "b\""));
  }

  lemma CarriageReturnShapes()
    ensures ShapeOf("k: \"a") == KeyField("k", "\"a") && ShapeOf("b\"") == Noise
  {
    ShapeOfField("k", "\"a");
    assert FieldText("k", "\"a") == "k: \"a";
    WordIsNoise("b\"");
  }

  lemma WordIsNoise(text: string)
    requires ':' !in text && (text != "" ==> text[0] != '-')
    ensures ShapeOf(text) == Noise
  {
    assert "- "[0] == '-';
  }

  /** A carriage return ends the line, and the opening quote stays behind as part of the text. */
  lemma CarriageReturnSplits()
    ensures FileLines(OneField("k", Str("a\rb"))) == ["k: \"a\n", "b\"\n"]
    ensures Loaded(OneField("k", Str("a\rb"))) == Obj(map["k" := Str("\"a")])
  {
    CarriageReturnText();
    CarriageReturnLines();
    CarriageReturnKept();
    CarriageReturnShapes();
    OpenQuoteIsText();
    FieldThenNoise(OneField("k", Str("a\rb")), "k: \"a\n", "b\"\n", "k: \"a", "b\"", "k", "\"a");
  }
}
