// The registry parser's reading of single lines and scalars, and a printer whose lines it recognises.

module RegistryText {
  import opened JsonValues
  import opened Options
  import opened RegistryBlocks
  import opened Sorting
  import opened Text

  function PyStrip(s: string): (r: string)
    ensures Stripped(IsPySpace, r)
    ensures Stripped(IsPySpace, s) ==> r == s
  {
    Strip(IsPySpace, s)
  }

  // ---- what a line says ----

  /** Item texts that are never read as `key: value`. */
  predicate StartsValue(s: string) {
    s != "" && s[0] in {'[', '{', '"', '\''}
  }

  function ShapeOf(text: string): Shape {
    if "- " <= text then
      var line := text[2..];
      var i := IndexOf(line, ':');
      if i < |line| && !StartsValue(line) then ItemField(PyStrip(line[..i]), PyStrip(line[i + 1..])) else ItemValue(line)
    else
      var i := IndexOf(text, ':');
      if i < |text| then KeyField(PyStrip(text[..i]), PyStrip(text[i + 1..])) else Noise
  }

  // ---- inline lists ----

  function DepthAfter(depth: int, c: char): int {
    if c == '[' || c == '{' then depth + 1 else if c == ']' || c == '}' then depth - 1 else depth
  }

  /** The parts between commas outside brackets; a blank last part is dropped. */
  function SplitFrom(s: string, depth: int, cur: string): (r: seq<string>)
    decreases |s|
  {
    if s == "" then (if PyStrip(cur) != "" then [PyStrip(cur)] else [])
    else
      var d := DepthAfter(depth, s[0]);
      if s[0] == ',' && d == 0 then [PyStrip(cur)] + SplitFrom(s[1..], d, "") else SplitFrom(s[1..], d, cur + [s[0]])
  }

  lemma {:induction false} PartsAreShort(s: string, depth: int, cur: string)
    ensures forall p :: p in SplitFrom(s, depth, cur) ==> |p| <= |cur| + |s|
    decreases |s|
  {
    StripShortens(IsPySpace, cur);
    if s != "" {
      PartsAreShort(s[1..], DepthAfter(depth, s[0]), "");
      PartsAreShort(s[1..], DepthAfter(depth, s[0]), cur + [s[0]]);
    }
  }

  method SplitTopLevel(s: string) returns (parts: seq<string>)
    ensures parts == SplitFrom(s, 0, "")
  {
    parts := [];
    var depth, cur := 0, "";
    for i := 0 to |s|
      invariant parts + SplitFrom(s[i..], depth, cur) == SplitFrom(s, 0, "")
    {
      assert s[i..][0] == s[i] && s[i..][1..] == s[i + 1..];
      depth := DepthAfter(depth, s[i]);
      if s[i] == ',' && depth == 0 {
        AppendAssoc(parts, [PyStrip(cur)], SplitFrom(s[i + 1..], depth, ""));
        parts, cur := parts + [PyStrip(cur)], "";
      } else {
        cur := cur + [s[i]];
      }
    }
    if PyStrip(cur) != "" { parts := parts + [PyStrip(cur)]; }
  }

  // ---- integers ----

  /** Digits with single underscores between them. */
  predicate IsNumeral(s: string) {
    && s != "" && IsDigit(s[0]) && IsDigit(s[|s| - 1])
    && forall i :: 0 <= i < |s| ==> NumeralAt(s, i)
  }

  predicate NumeralAt(s: string, i: nat)
    requires i < |s|
  {
    IsDigit(s[i]) || (s[i] == '_' && i > 0 && s[i - 1] != '_')
  }

  function ValueOfDigits(s: string): nat {
    if s == "" then 0
    else if IsDigit(s[|s| - 1]) then 10 * ValueOfDigits(s[..|s| - 1]) + (s[|s| - 1] as int - '0' as int)
    else ValueOfDigits(s[..|s| - 1])
  }

  /** Python's `int(s)` on ASCII text without surrounding blanks. */
  function IntOf(s: string): Option<int> {
    var digits := if s != "" && (s[0] == '-' || s[0] == '+') then s[1..] else s;
    if !IsNumeral(digits) then None
    else
      var v: int := ValueOfDigits(digits);
      Some(if s[0] == '-' then -v else v)
  }

  // ---- scalars ----

  predicate Enclosed(s: string, open: char, close: char) {
    s != "" && s[0] == open && s[|s| - 1] == close
  }

  /** Without its first and last character. */
  function Inside(s: string): string {
    if |s| >= 2 then s[1..|s| - 1] else ""
  }

  function PlainScalar(s: string): Json {
    if Lower(s) == "true" || Lower(s) == "yes" then Bool(true)
    else if Lower(s) == "false" || Lower(s) == "no" then Bool(false)
    else if '.' !in s && IntOf(s).Some? then Int(IntOf(s).value)
    else Str(s)
  }

  function ParseScalar(text: string): Json
    decreases |text|, 0, 0
  {
    var s := PyStrip(text);
    StripShortens(IsPySpace, text);
    if s == "{}" then Obj(map[])
    else if s == "" || s == "null" || s == "~" then Null
    else if Enclosed(s, '[', ']') then
      StripShortens(IsPySpace, Inside(s));
      ParseList(PyStrip(Inside(s)))
    else if Enclosed(s, '"', '"') || Enclosed(s, '\'', '\'') then Str(Inside(s))
    else PlainScalar(s)
  }

  function ParseList(inner: string): Json
    decreases |inner|, 2, 0
  {
    PartsAreShort(inner, 0, "");
    Arr(ParseParts(SplitFrom(inner, 0, ""), |inner|))
  }

  function ParseParts(parts: seq<string>, n: nat): seq<Json>
    requires forall p :: p in parts ==> |p| <= n
    decreases n, 1, |parts|
  {
    if parts == [] then []
    else
      assert parts[0] in parts;
      [ParseScalar(parts[0])] + ParseParts(parts[1..], n)
  }

  // ---- writing scalars ----

  predicate IsPlainChar(c: char) {
    IsDigit(c) || 'a' <= c <= 'z' || 'A' <= c <= 'Z' || c == '-' || c == '_' || c == '/' || c == '.' || c == '*'
  }

  predicate IsPlain(s: string) {
    s != "" && forall c :: c in s ==> IsPlainChar(c)
  }

  /** Plain, with a character no number is written with, and none of the words with a meaning. */
  predicate IsWord(s: string) {
    && IsPlain(s) && (exists c :: c in s && !IsDigit(c) && c != '-' && c != '_')
    && s != "null" && Lower(s) !in {"true", "yes", "false", "no"}
  }

  /** Words are written as they are, other strings in quotes. */
  function ShowText(s: string): string {
    if IsWord(s) then s else "\"" + s + "\""
  }

  function Show(v: Json): string {
    match v
    case Str(s) => ShowText(s)
    case Int(n) => DecimalInt(n)
    case Bool(b) => if b then "true" else "false"
    case _ => "null"
  }

  function ShowAll(vs: seq<Json>): seq<string> {
    if vs == [] then [] else [Show(vs[0])] + ShowAll(vs[1..])
  }

  /** `", ".join(parts)` */
  function JoinCommas(parts: seq<string>): string {
    if parts == [] then "" else if |parts| == 1 then parts[0] else parts[0] + (", " + JoinCommas(parts[1..]))
  }

  function ShowInline(vs: seq<Json>): string {
    "[" + JoinCommas(ShowAll(vs)) + "]"
  }

  predicate IsScalar(v: Json) {
    v.Str? || v.Int? || v.Bool? || v.Null?
  }

  predicate IsListChar(c: char) {
    c == ',' || c == '[' || c == ']' || c == '{' || c == '}'
  }

  predicate FitsInline(v: Json) {
    IsScalar(v) && (v.Str? ==> forall c :: c in v.s ==> !IsListChar(c))
  }

  // ---- reading scalars back ----

  lemma {:induction false} DigitsReadBack(n: nat)
    ensures ValueOfDigits(Decimal(n)) == n && forall c :: c in Decimal(n) ==> IsDigit(c)
  {
    if n >= 10 {
      DigitsReadBack(n / 10);
      assert Decimal(n)[..|Decimal(n)| - 1] == Decimal(n / 10);
    } else {
      assert Decimal(n)[..0] == "";
    }
  }

  lemma NumeralOfDigits(s: string)
    requires s != "" && forall c :: c in s ==> IsDigit(c)
    ensures IsNumeral(s)
  {
    assert forall i :: 0 <= i < |s| ==> s[i] in s;
  }

  lemma NatReadsBack(n: nat)
    ensures IntOf(Decimal(n)).Some? && IntOf(Decimal(n)).value == n
    ensures IntOf("-" + Decimal(n)).Some? && IntOf("-" + Decimal(n)).value == 0 - n
    ensures forall c :: c in Decimal(n) ==> IsDigit(c)
  {
    DigitsReadBack(n);
    IntOfDigits(Decimal(n));
  }

  lemma IntOfDigits(d: string)
    requires d != "" && forall c :: c in d ==> IsDigit(c)
    ensures IntOf(d).Some? && IntOf(d).value == ValueOfDigits(d)
    ensures IntOf("-" + d).Some? && IntOf("-" + d).value == 0 - ValueOfDigits(d)
  {
    NumeralOfDigits(d);
    assert d[0] in d;
    assert ("-" + d)[1..] == d;
  }

  lemma IntReadsBack(n: int)
    ensures IntOf(DecimalInt(n)) == Some(n) && forall c :: c in DecimalInt(n) ==> IsDigit(c) || c == '-'
  {
    NatReadsBack(if n < 0 then -n else n);
  }

  lemma StripOne(s: string)
    requires s != "" && Stripped(IsPySpace, s)
    ensures PyStrip(" " + s) == s
  {
    assert (" " + s)[1..] == s;
    assert StripLeft(IsPySpace, s) == s && StripRight(IsPySpace, s) == s;
  }

  /** Texts that start like a number or a letter are not brackets, quotes or blanks. */
  lemma PlainIsStripped(s: string)
    requires IsPlain(s)
    ensures Stripped(IsPySpace, s) && !StartsValue(s) && ':' !in s && forall c :: c in s ==> !IsListChar(c)
  {
    assert s[0] in s && s[|s| - 1] in s;
  }

  lemma NumberIsPlain(n: int)
    ensures IsPlain(DecimalInt(n))
  {
    IntReadsBack(n);
  }

  /** A number is not one of the words with a meaning. */
  lemma NumberIsNoWord(s: string)
    requires s != "" && (IsDigit(s[0]) || s[0] == '-')
    ensures Lower(s) != "true" && Lower(s) != "yes" && Lower(s) != "false" && Lower(s) != "no"
    ensures s != "{}" && s != "null" && s != "~"
  {
    assert Lower(s)[0] == s[0];
  }

  lemma ReadsNumber(n: int)
    ensures ParseScalar(DecimalInt(n)) == Int(n)
  {
    var s := DecimalInt(n);
    IntReadsBack(n);
    NumberIsPlain(n);
    PlainIsStripped(s);
    assert s[0] in s;
    NumberIsNoWord(s);
    assert '.' !in s;
  }

  lemma ReadsQuoted(s: string)
    ensures ParseScalar("\"" + s + "\"") == Str(s)
  {
    var q := "\"" + s + "\"";
    assert q[0] == '"' && q[|q| - 1] == '"' && Inside(q) == s;
    assert Stripped(IsPySpace, q);
    assert q != "{}" && q != "null" && q != "~";
  }

  lemma NumeralChars(s: string, i: nat)
    requires i < |s| && !IsDigit(s[i]) && s[i] != '_'
    ensures !IsNumeral(s)
  {
    assert !NumeralAt(s, i);
  }

  lemma NoNumeral(s: string)
    requires IsPlain(s) && exists c :: c in s && !IsDigit(c) && c != '-' && c != '_'
    ensures IntOf(s).None?
  {
    var i :| 0 <= i < |s| && !IsDigit(s[i]) && s[i] != '-' && s[i] != '_';
    assert IsPlainChar(s[0]) by { assert s[0] in s; }
    NumeralChars(s, i);
    if s[0] == '-' { NumeralChars(s[1..], i - 1); }
  }

  lemma ReadsWord(s: string)
    requires IsWord(s)
    ensures ParseScalar(s) == Str(s)
  {
    PlainIsStripped(s);
    NoNumeral(s);
    assert IsPlainChar(s[0]) by { assert s[0] in s; }
    assert "{}"[0] == '{' && "~"[0] == '~';
    assert s != "{}" && s != "~";
    assert Lower(s) != "true" && Lower(s) != "yes" && Lower(s) != "false" && Lower(s) != "no";
    assert PyStrip(s) == s && s != "" && !Enclosed(s, '[', ']') && !Enclosed(s, '"', '"') && !Enclosed(s, '\'', '\'');
    assert PlainScalar(s) == Str(s);
  }

  lemma ReadsWords()
    ensures ParseScalar("true") == Bool(true) && ParseScalar("false") == Bool(false) && ParseScalar("null") == Null
  {
    assert Stripped(IsPySpace, "true") && Stripped(IsPySpace, "false") && Stripped(IsPySpace, "null");
    assert Lower("true") == "true" && Lower("false") == "false";
  }

  /** Every scalar is read back from what is shown for it. */
  lemma ScalarReadsBack(v: Json)
    requires IsScalar(v)
    ensures ParseScalar(Show(v)) == v
  {
    match v
    case Str(s) => if IsWord(s) { ReadsWord(s); } else { ReadsQuoted(s); }
    case Int(n) => ReadsNumber(n);
    case _ => ReadsWords();
  }

  // ---- inline lists ----

  ghost predicate IsPart(s: string) {
    s != "" && Stripped(IsPySpace, s) && forall c :: c in s ==> !IsListChar(c)
  }

  /** Characters other than commas and brackets are collected. */
  lemma {:induction false} SplitCollects(a: string, rest: string, cur: string)
    requires forall c :: c in a ==> !IsListChar(c)
    ensures SplitFrom(a + rest, 0, cur) == SplitFrom(rest, 0, cur + a)
    decreases |a|
  {
    if a == "" {
      assert a + rest == rest && cur + a == cur;
    } else {
      assert a[0] in a && (a + rest)[0] == a[0] && (a + rest)[1..] == a[1..] + rest;
      SplitCollects(a[1..], rest, cur + [a[0]]);
      assert (cur + [a[0]]) + a[1..] == cur + a;
    }
  }

  lemma SplitAtComma(rest: string, cur: string)
    ensures SplitFrom(", " + rest, 0, cur) == [PyStrip(cur)] + SplitFrom(rest, 0, " ")
  {
    assert (", " + rest)[1..] == " " + rest && (" " + rest)[1..] == rest;
    assert "" + [' '] == " ";
  }

  /** `before` is what is left over from a separator: nothing or one blank. */
  lemma {:induction false} PartsReadBack(parts: seq<string>, before: string)
    requires parts != [] && (forall p :: p in parts ==> IsPart(p)) && (before == "" || before == " ")
    ensures SplitFrom(JoinCommas(parts), 0, before) == parts
    decreases |parts|
  {
    assert parts[0] in parts;
    if |parts| == 1 {
      LastPartReadsBack(parts[0], before);
    } else {
      FirstPartReadsBack(parts[0], JoinCommas(parts[1..]), before);
      PartsReadBack(parts[1..], " ");
    }
  }

  lemma PaddedPart(p: string, before: string)
    requires IsPart(p) && (before == "" || before == " ")
    ensures PyStrip(before + p) == p
  {
    StripOne(p);
    assert "" + p == p;
  }

  lemma LastPartReadsBack(p: string, before: string)
    requires IsPart(p) && (before == "" || before == " ")
    ensures SplitFrom(p, 0, before) == [p]
  {
    PaddedPart(p, before);
    assert p + "" == p;
    SplitCollects(p, "", before);
  }

  lemma FirstPartReadsBack(p: string, rest: string, before: string)
    requires IsPart(p) && (before == "" || before == " ")
    ensures SplitFrom(p + (", " + rest), 0, before) == [p] + SplitFrom(rest, 0, " ")
  {
    PaddedPart(p, before);
    SplitCollects(p, ", " + rest, before);
    SplitAtComma(rest, before + p);
  }

  lemma ShowIsPart(v: Json)
    requires FitsInline(v)
    ensures IsPart(Show(v))
  {
    match v
    case Str(s) =>
      if IsPlain(s) { PlainIsStripped(s); }
    case Int(n) =>
      NumberIsPlain(n);
      PlainIsStripped(DecimalInt(n));
    case _ =>
  }

  lemma {:induction false} ShowsAreParts(vs: seq<Json>)
    requires forall v :: v in vs ==> FitsInline(v)
    ensures |ShowAll(vs)| == |vs| && forall p :: p in ShowAll(vs) ==> IsPart(p)
  {
    if vs != [] {
      assert vs[0] in vs;
      ShowIsPart(vs[0]);
      ShowsAreParts(vs[1..]);
    }
  }

  lemma {:induction false} PartsParse(vs: seq<Json>, n: nat)
    requires (forall v :: v in vs ==> FitsInline(v)) && forall p :: p in ShowAll(vs) ==> |p| <= n
    ensures ParseParts(ShowAll(vs), n) == vs
  {
    if vs != [] {
      assert vs[0] in vs;
      ScalarReadsBack(vs[0]);
      PartsParse(vs[1..], n);
    }
  }

  lemma {:induction false} JoinIsStripped(parts: seq<string>)
    requires parts != [] && forall p :: p in parts ==> IsPart(p)
    ensures var s := JoinCommas(parts); s != "" && !IsPySpace(s[0]) && !IsPySpace(s[|s| - 1])
  {
    assert parts[0] in parts;
    if |parts| > 1 { JoinIsStripped(parts[1..]); }
  }

  lemma ReadsBracketed(inner: string)
    requires Stripped(IsPySpace, inner)
    ensures ParseScalar("[" + inner + "]") == ParseList(inner)
  {
    var s := "[" + inner + "]";
    assert s[0] == '[' && s[|s| - 1] == ']' && Inside(s) == inner;
    assert Stripped(IsPySpace, s);
    assert s != "{}" && s != "null" && s != "~";
  }

  /** An inline list of scalars without commas and brackets is read back. */
  lemma InlineReadsBack(vs: seq<Json>)
    requires forall v :: v in vs ==> FitsInline(v)
    ensures ParseScalar(ShowInline(vs)) == Arr(vs)
  {
    if vs == [] {
      ReadsBracketed("");
      assert ShowInline(vs) == "[" + "" + "]";
      assert SplitFrom("", 0, "") == [] && ParseParts([], 0) == [];
    } else {
      var parts := ShowAll(vs);
      ShowsAreParts(vs);
      JoinIsStripped(parts);
      PartsReadBack(parts, "");
      PartsAreShort(JoinCommas(parts), 0, "");
      ReadsBracketed(JoinCommas(parts));
      PartsParse(vs, |JoinCommas(parts)|);
    }
  }

  // ---- lines ----

  const SYNTAX := Syntax(ShapeOf, ParseScalar)

  function FieldText(key: string, shown: string): string {
    key + (": " + shown)
  }

  function HeaderText(key: string): string {
    key + ":"
  }

  function ItemText(shown: string): string {
    "- " + shown
  }

  const PRINTER := Printer(FieldText, HeaderText, ItemText, (key, shown) => ItemText(FieldText(key, shown)), Show, ShowInline)

  /** Keys and scalars the two registries use: plain keys, any scalar, inline lists of scalars without commas or brackets. */
  const LIMITS := Limits(IsPlain, FitsLine, FitsInlineList)

  /** Strings must not break the line or look like a comment. */
  predicate FitsLine(v: Json) {
    IsScalar(v) && (v.Str? ==> Unbroken(v.s) && !HasComment(v.s))
  }

  predicate FitsInlineList(vs: seq<Json>) {
    forall v :: v in vs ==> FitsInline(v) && FitsLine(v)
  }

  /** `" #" in s` */
  predicate HasComment(s: string) {
    exists i :: 0 <= i < |s| - 1 && s[i] == ' ' && s[i + 1] == '#'
  }

  lemma KeyThenColon(key: string, rest: string)
    requires IsPlain(key)
    ensures var text := key + (":" + rest);
      IndexOf(text, ':') == |key| && text[..|key|] == key && text[|key| + 1..] == rest && PyStrip(key) == key
    ensures !("- " <= key + (":" + rest)) && !StartsValue(key + (":" + rest))
  {
    var text := key + (":" + rest);
    PlainIsStripped(key);
    assert text == key + [':'] + rest;
    IndexOfAppend(key, ':', rest);
    assert key[0] in key && (|key| > 1 ==> key[1] in key);
    assert text[0] == key[0] && text[1] == if |key| > 1 then key[1] else ':';
    assert "- "[1] == ' ';
  }

  /** Where a field text divides, and that it starts like neither an item nor a value. */
  lemma FieldPieces(key: string, shown: string)
    requires IsPlain(key) && shown != "" && Stripped(IsPySpace, shown)
    ensures var line := FieldText(key, shown);
      && IndexOf(line, ':') == |key| < |line| && PyStrip(line[..|key|]) == key && PyStrip(line[|key| + 1..]) == shown
      && !("- " <= line) && !StartsValue(line)
  {
    KeyThenColon(key, " " + shown);
    FieldTextIs(key, shown);
    StripOne(shown);
  }

  lemma ShapeOfField(key: string, shown: string)
    requires IsPlain(key) && shown != "" && Stripped(IsPySpace, shown)
    ensures ShapeOf(FieldText(key, shown)) == KeyField(key, shown)
  {
    FieldPieces(key, shown);
  }

  lemma FieldTextIs(key: string, shown: string)
    ensures FieldText(key, shown) == key + (":" + (" " + shown))
  {
    assert ": " + shown == ":" + (" " + shown);
  }

  lemma ShapeOfHeader(key: string)
    requires IsPlain(key)
    ensures ShapeOf(HeaderText(key)) == KeyField(key, "")
  {
    KeyThenColon(key, "");
    assert key + (":" + "") == key + ":";
  }

  lemma ShapeOfItem(shown: string)
    requires ':' !in shown || StartsValue(shown)
    ensures ShapeOf(ItemText(shown)) == ItemValue(shown)
  {
    assert ItemText(shown)[2..] == shown;
  }

  lemma ShapeOfItemField(key: string, shown: string)
    requires IsPlain(key) && shown != "" && Stripped(IsPySpace, shown)
    ensures ShapeOf(ItemText(FieldText(key, shown))) == ItemField(key, shown)
  {
    FieldPieces(key, shown);
    ItemTextIs(FieldText(key, shown));
  }

  lemma ItemTextIs(shown: string)
    ensures "- " <= ItemText(shown) && ItemText(shown)[2..] == shown
  {
  }

  /** What is shown for a scalar is a stripped text that is no value marker and, as an item, no field. */
  lemma ShownText(v: Json)
    requires IsScalar(v)
    ensures var s := Show(v); PlainRest(s) && Stripped(IsPySpace, s) && (':' !in s || StartsValue(s))
  {
    match v
    case Str(s) =>
      if IsWord(s) {
        PlainIsStripped(s);
        assert s[0] in s;
      }
    case Int(n) =>
      NumberIsPlain(n);
      PlainIsStripped(DecimalInt(n));
      assert DecimalInt(n)[0] in DecimalInt(n);
    case _ =>
  }

  lemma ShownInline(vs: seq<Json>)
    ensures PlainRest(ShowInline(vs)) && Stripped(IsPySpace, ShowInline(vs))
  {
    var s := ShowInline(vs);
    assert s[0] == '[' && s[|s| - 1] == ']';
  }

  /** The printer's lines are recognised for what they are. */
  lemma PrinterIsFaithful()
    ensures Faithful(SYNTAX, PRINTER, LIMITS)
  {
    forall k, v | IsPlain(k) && FitsLine(v)
      ensures ShapeOf(FieldText(k, Show(v))) == KeyField(k, Show(v)) && ShapeOf(ItemText(FieldText(k, Show(v)))) == ItemField(k, Show(v))
    {
      ShownText(v);
      ShapeOfField(k, Show(v));
      ShapeOfItemField(k, Show(v));
    }
    forall k, vs | IsPlain(k) && FitsInlineList(vs) ensures ShapeOf(FieldText(k, ShowInline(vs))) == KeyField(k, ShowInline(vs)) {
      ShownInline(vs);
      ShapeOfField(k, ShowInline(vs));
    }
    forall k | IsPlain(k) ensures ShapeOf(HeaderText(k)) == KeyField(k, "") { ShapeOfHeader(k); }
    forall v | FitsLine(v) ensures ShapeOf(ItemText(Show(v))) == ItemValue(Show(v)) && PlainRest(Show(v)) && ParseScalar(Show(v)) == v {
      ShownText(v);
      ShapeOfItem(Show(v));
      ScalarReadsBack(v);
    }
    forall vs | FitsInlineList(vs) ensures PlainRest(ShowInline(vs)) && ParseScalar(ShowInline(vs)) == Arr(vs) {
      ShownInline(vs);
      InlineReadsBack(vs);
    }
  }
}
