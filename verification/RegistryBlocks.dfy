// The fallback registry parser's block structure: indentation, list items and mappings.

module RegistryBlocks {
  import opened JsonValues
  import opened Options
  import opened Sorting
  import opened Text

  /** A line without its comment, with the leading blanks counted and the text stripped. */
  datatype Line = Line(indent: nat, text: string)

  /** What a stripped line says. */
  datatype Shape = ItemValue(text: string) | ItemField(key: string, rest: string) | KeyField(key: string, rest: string) | Noise

  /** How line texts and scalars are read. */
  datatype Syntax = Syntax(shape: string -> Shape, scalar: string -> Json)

  /** The text lines of a folded value: everything at or beyond the indent. */
  function FoldedLength(ls: seq<Line>, indent: nat): (n: nat)
    ensures n <= |ls|
  {
    if ls == [] || (ls[0].text != "" && ls[0].indent < indent) then 0 else 1 + FoldedLength(ls[1..], indent)
  }

  function FoldedText(ls: seq<Line>): seq<string> {
    if ls == [] then [] else (if ls[0].text != "" then [ls[0].text] else []) + FoldedText(ls[1..])
  }

  /** The lists and mappings found so far at one indent. */
  datatype Found = Found(items: Option<seq<Json>>, fields: Option<map<string, Json>>)

  const NOTHING := Found(None, None)

  /** A block with both is a list; one with neither is nothing. */
  function Result(f: Found): Json {
    if f.items.Some? then Arr(f.items.value) else if f.fields.Some? then Obj(f.fields.value) else Null
  }

  function WithItem(f: Found, v: Json): Found {
    f.(items := Some((if f.items.Some? then f.items.value else []) + [v]))
  }

  function WithField(f: Found, key: string, v: Json): Found {
    f.(fields := Some((if f.fields.Some? then f.fields.value else map[])[key := v]))
  }

  /** Reads the block at indent `n`; returns its value and the lines after it. */
  function Read(y: Syntax, n: nat, ls: seq<Line>, f: Found): (r: (Json, seq<Line>))
    ensures |r.1| <= |ls|
    decreases |ls|, 1
  {
    if ls == [] || ls[0].indent < n then (Result(f), ls)
    else if ls[0].indent > n then Read(y, n, ls[1..], f)
    else match y.shape(ls[0].text)
      case ItemValue(text) => Read(y, n, ls[1..], WithItem(f, y.scalar(text)))
      case ItemField(key, rest) => var (v, more) := ReadItem(y, n, ls, key, rest); Read(y, n, more, WithItem(f, v))
      case KeyField(key, rest) => var (v, more) := ReadField(y, n, ls, rest); Read(y, n, more, WithField(f, key, v))
      case Noise => Read(y, n, ls[1..], f)
  }

  /** An item that starts a mapping: its first field, then the fields two deeper. */
  function ReadItem(y: Syntax, n: nat, ls: seq<Line>, key: string, rest: string): (r: (Json, seq<Line>))
    requires ls != []
    ensures |r.1| < |ls|
    decreases |ls|, 0
  {
    var (first, more) := if rest != "" then (y.scalar(rest), ls[1..]) else Read(y, n + 2, ls[1..], NOTHING);
    var (nested, after) := Read(y, n + 2, more, NOTHING);
    (Obj(map[key := first] + if nested.Obj? then nested.fields else map[]), after)
  }

  function ReadField(y: Syntax, n: nat, ls: seq<Line>, rest: string): (r: (Json, seq<Line>))
    requires ls != []
    ensures |r.1| < |ls|
    decreases |ls|, 0
  {
    if rest == ">" || rest == "|" then
      var k := FoldedLength(ls[1..], n + 2);
      (Str(Join(' ', FoldedText(ls[1..][..k]))), ls[1..][k..])
    else if rest != "" then (y.scalar(rest), ls[1..])
    else Read(y, n + 2, ls[1..], NOTHING)
  }

  // ---- the loop over the lines ----

  method ParseBlock(y: Syntax, lines: seq<Line>, start: nat, base: nat) returns (v: Json, i: nat)
    requires start <= |lines|
    ensures start <= i <= |lines| && (v, lines[i..]) == Read(y, base, lines[start..], NOTHING)
    decreases |lines| - start, 2
  {
    i := start;
    var found := NOTHING;
    while i < |lines|
      invariant start <= i <= |lines|
      invariant Read(y, base, lines[i..], found) == Read(y, base, lines[start..], NOTHING)
    {
      assert lines[i..][0] == lines[i] && lines[i..][1..] == lines[i + 1..];
      if lines[i].indent < base { break; }
      if lines[i].indent > base {
        i := i + 1;
      } else {
        found, i := ParseLine(y, lines, i, found);
      }
    }
    v := Result(found);
  }

  /** One line at the block's own indent, with whatever hangs below it. */
  method ParseLine(y: Syntax, lines: seq<Line>, i: nat, found: Found) returns (more: Found, next: nat)
    requires i < |lines|
    ensures i < next <= |lines|
    ensures Read(y, lines[i].indent, lines[next..], more) == Read(y, lines[i].indent, lines[i..], found)
    decreases |lines| - i, 1
  {
    var n := lines[i].indent;
    assert lines[i..][0] == lines[i] && lines[i..][1..] == lines[i + 1..];
    match y.shape(lines[i].text) {
      case ItemValue(text) =>
        more, next := WithItem(found, y.scalar(text)), i + 1;
      case ItemField(key, rest) =>
        var v;
        v, next := ParseItem(y, lines, i, key, rest);
        more := WithItem(found, v);
      case KeyField(key, rest) =>
        var v;
        v, next := ParseField(y, lines, i, rest);
        more := WithField(found, key, v);
      case Noise =>
        more, next := found, i + 1;
    }
  }

  method ParseField(y: Syntax, lines: seq<Line>, i: nat, rest: string) returns (v: Json, next: nat)
    requires i < |lines|
    ensures i < next <= |lines| && (v, lines[next..]) == ReadField(y, lines[i].indent, lines[i..], rest)
    decreases |lines| - i, 0
  {
    var n := lines[i].indent;
    assert lines[i..][1..] == lines[i + 1..];
    if rest == ">" || rest == "|" {
      v, next := ParseFolded(lines, i + 1, n + 2);
    } else if rest != "" {
      v, next := y.scalar(rest), i + 1;
    } else {
      v, next := ParseBlock(y, lines, i + 1, n + 2);
    }
  }

  method ParseItem(y: Syntax, lines: seq<Line>, i: nat, key: string, rest: string) returns (v: Json, next: nat)
    requires i < |lines|
    ensures i < next <= |lines| && (v, lines[next..]) == ReadItem(y, lines[i].indent, lines[i..], key, rest)
    decreases |lines| - i, 0
  {
    var n := lines[i].indent;
    assert lines[i..][1..] == lines[i + 1..];
    var first, after := y.scalar(rest), i + 1;
    if rest == "" { first, after := ParseBlock(y, lines, i + 1, n + 2); }
    var nested;
    nested, next := ParseBlock(y, lines, after, n + 2);
    v := Obj(map[key := first] + if nested.Obj? then nested.fields else map[]);
  }

  method ParseFolded(lines: seq<Line>, start: nat, indent: nat) returns (v: Json, next: nat)
    requires start <= |lines|
    ensures start <= next <= |lines| && next == start + FoldedLength(lines[start..], indent)
    ensures v == Str(Join(' ', FoldedText(lines[start..][..next - start]))) && lines[next..] == lines[start..][next - start..]
  {
    next := start;
    var texts: seq<string> := [];
    while next < |lines| && (lines[next].text == "" || lines[next].indent >= indent)
      invariant start <= next <= |lines|
      invariant next + FoldedLength(lines[next..], indent) == start + FoldedLength(lines[start..], indent)
      invariant texts == FoldedText(lines[start..next])
    {
      assert lines[next..][0] == lines[next] && lines[next..][1..] == lines[next + 1..];
      FoldedSnoc(lines[start..next], lines[next]);
      OneMoreLine(lines, start, next);
      if lines[next].text != "" { texts := texts + [lines[next].text]; }
      next := next + 1;
    }
    LinesFrom(lines, start, next);
    v := Str(Join(' ', texts));
  }

  lemma OneMoreLine(lines: seq<Line>, start: nat, next: nat)
    requires start <= next < |lines|
    ensures lines[start..next + 1] == lines[start..next] + [lines[next]]
  {
  }

  lemma LinesFrom(lines: seq<Line>, start: nat, next: nat)
    requires start <= next <= |lines|
    ensures lines[start..next] == lines[start..][..next - start] && lines[next..] == lines[start..][next - start..]
  {
  }

  lemma {:induction false} FoldedSnoc(ls: seq<Line>, l: Line)
    ensures FoldedText(ls + [l]) == FoldedText(ls) + if l.text != "" then [l.text] else []
  {
    if ls == [] {
      assert ls + [l] == [l] && [l][1..] == [];
    } else {
      FoldedSnoc(ls[1..], l);
      assert (ls + [l])[0] == ls[0] && (ls + [l])[1..] == ls[1..] + [l];
    }
  }

  // ---- printing with two blanks a level ----

  datatype Doc =
    | Scalar(v: Json)
    | Inline(vs: seq<Json>)
    | Block(vs: seq<Json>)
    | Mapping(fields: seq<Entry>)
    | Records(records: seq<Record>)

  datatype Entry = Entry(key: string, doc: Doc)

  /** A list item that is a mapping; its first field is a scalar. */
  datatype Record = Record(key: string, v: Json, fields: seq<Entry>)

  /** How single lines are written. */
  datatype Printer = Printer(
    field: (string, string) -> string,
    header: string -> string,
    item: string -> string,
    itemField: (string, string) -> string,
    show: Json -> string,
    showInline: seq<Json> -> string)

  function EntryLines(p: Printer, n: nat, e: Entry): seq<Line>
    decreases e
  {
    match e.doc
    case Scalar(v) => [Line(n, p.field(e.key, p.show(v)))]
    case Inline(vs) => [Line(n, p.field(e.key, p.showInline(vs)))]
    case Block(vs) => [Line(n, p.header(e.key))] + ItemLines(p, n + 2, vs)
    case Mapping(fields) => [Line(n, p.header(e.key))] + MappingLines(p, n + 2, fields)
    case Records(records) => [Line(n, p.header(e.key))] + RecordsLines(p, n + 2, records)
  }

  function ItemLines(p: Printer, n: nat, vs: seq<Json>): seq<Line> {
    if vs == [] then [] else [Line(n, p.item(p.show(vs[0])))] + ItemLines(p, n, vs[1..])
  }

  function MappingLines(p: Printer, n: nat, fields: seq<Entry>): seq<Line>
    decreases fields
  {
    if fields == [] then [] else EntryLines(p, n, fields[0]) + MappingLines(p, n, fields[1..])
  }

  function RecordsLines(p: Printer, n: nat, records: seq<Record>): seq<Line>
    decreases records
  {
    if records == [] then [] else RecordLines(p, n, records[0]) + RecordsLines(p, n, records[1..])
  }

  function RecordLines(p: Printer, n: nat, r: Record): seq<Line>
    decreases r
  {
    [Line(n, p.itemField(r.key, p.show(r.v)))] + MappingLines(p, n + 2, r.fields)
  }

  // ---- the data a document stands for ----

  function Data(d: Doc): Json {
    match d
    case Scalar(v) => v
    case Inline(vs) => Arr(vs)
    case Block(vs) => Arr(vs)
    case Mapping(fields) => Obj(FieldData(map[], fields))
    case Records(records) => Arr(RecordData(records))
  }

  /** Later fields of one name replace earlier ones. */
  function FieldData(before: map<string, Json>, fields: seq<Entry>): map<string, Json>
    decreases fields
  {
    if fields == [] then before else FieldData(before[fields[0].key := Data(fields[0].doc)], fields[1..])
  }

  function RecordData(records: seq<Record>): seq<Json> {
    if records == [] then []
    else [Obj(map[records[0].key := records[0].v] + FieldData(map[], records[0].fields))] + RecordData(records[1..])
  }

  /** Which keys and values the line syntax can carry. */
  datatype Limits = Limits(key: string -> bool, scalar: Json -> bool, inline: seq<Json> -> bool)

  ghost predicate Fits(x: Limits, d: Doc) {
    match d
    case Scalar(v) => x.scalar(v)
    case Inline(vs) => x.inline(vs)
    case Block(vs) => vs != [] && forall v :: v in vs ==> x.scalar(v)
    case Mapping(fields) => fields != [] && AllFit(x, fields)
    case Records(records) => records != [] && RecordsFit(x, records)
  }

  ghost predicate AllFit(x: Limits, fields: seq<Entry>) {
    fields == [] || (x.key(fields[0].key) && Fits(x, fields[0].doc) && AllFit(x, fields[1..]))
  }

  ghost predicate RecordsFit(x: Limits, records: seq<Record>) {
    records == [] || (x.key(records[0].key) && x.scalar(records[0].v) && AllFit(x, records[0].fields) && RecordsFit(x, records[1..]))
  }

  /** Every printed line is recognised for what it is. */
  ghost predicate Faithful(y: Syntax, p: Printer, x: Limits) {
    && (forall k, v :: x.key(k) && x.scalar(v) ==> y.shape(p.field(k, p.show(v))) == KeyField(k, p.show(v)))
    && (forall k, vs :: x.key(k) && x.inline(vs) ==> y.shape(p.field(k, p.showInline(vs))) == KeyField(k, p.showInline(vs)))
    && (forall k :: x.key(k) ==> y.shape(p.header(k)) == KeyField(k, ""))
    && (forall v :: x.scalar(v) ==> y.shape(p.item(p.show(v))) == ItemValue(p.show(v)))
    && (forall k, v :: x.key(k) && x.scalar(v) ==> y.shape(p.itemField(k, p.show(v))) == ItemField(k, p.show(v)))
    && (forall v :: x.scalar(v) ==> PlainRest(p.show(v)) && y.scalar(p.show(v)) == v)
    && (forall vs :: x.inline(vs) ==> PlainRest(p.showInline(vs)) && y.scalar(p.showInline(vs)) == Arr(vs))
  }

  predicate PlainRest(rest: string) {
    rest != "" && rest != ">" && rest != "|"
  }

  /** The rest of the lines leaves blocks deeper than `n`. */
  ghost predicate Leaves(n: nat, rest: seq<Line>) {
    rest == [] || rest[0].indent <= n
  }

  // ---- reading back what was printed ----

  lemma {:induction false} ReadsItems(y: Syntax, p: Printer, x: Limits, n: nat, vs: seq<Json>, f: Found, rest: seq<Line>)
    requires Faithful(y, p, x) && (forall v :: v in vs ==> x.scalar(v))
    ensures Read(y, n, ItemLines(p, n, vs) + rest, f) == Read(y, n, rest, WithItems(f, vs))
    decreases |vs|
  {
    var ls := ItemLines(p, n, vs) + rest;
    if vs == [] {
      assert ls == rest;
    } else {
      assert vs[0] in vs;
      assert ls[0] == Line(n, p.item(p.show(vs[0]))) && ls[1..] == ItemLines(p, n, vs[1..]) + rest;
      ReadsItems(y, p, x, n, vs[1..], WithItem(f, vs[0]), rest);
    }
  }

  function WithItems(f: Found, vs: seq<Json>): Found
    decreases |vs|
  {
    if vs == [] then f else WithItems(WithItem(f, vs[0]), vs[1..])
  }

  lemma {:induction false} WithItemsIs(f: Found, vs: seq<Json>)
    ensures vs != [] ==> WithItems(f, vs) == f.(items := Some((if f.items.Some? then f.items.value else []) + vs))
    decreases |vs|
  {
    if vs != [] {
      WithItemsIs(WithItem(f, vs[0]), vs[1..]);
      assert vs == [vs[0]] + vs[1..];
      var before := if f.items.Some? then f.items.value else [];
      assert (before + [vs[0]]) + vs[1..] == before + vs;
      assert before + [vs[0]] == before + vs || |vs| > 1;
    }
  }

  function WithFields(f: Found, fields: seq<Entry>): Found {
    if fields == [] then f
    else f.(fields := Some(FieldData(if f.fields.Some? then f.fields.value else map[], fields)))
  }

  lemma BlockEnds(y: Syntax, n: nat, rest: seq<Line>, f: Found)
    requires rest == [] || rest[0].indent < n
    ensures Read(y, n, rest, f) == (Result(f), rest)
  {
  }

  lemma ReadsText(y: Syntax, n: nat, text: string, key: string, shown: string, f: Found, rest: seq<Line>)
    requires y.shape(text) == KeyField(key, shown) && PlainRest(shown)
    ensures Read(y, n, [Line(n, text)] + rest, f) == Read(y, n, rest, WithField(f, key, y.scalar(shown)))
  {
    assert ([Line(n, text)] + rest)[1..] == rest;
  }

  lemma ReadsHeader(y: Syntax, n: nat, text: string, key: string, sub: seq<Line>, v: Json, f: Found, rest: seq<Line>)
    requires y.shape(text) == KeyField(key, "") && Read(y, n + 2, sub + rest, NOTHING) == (v, rest)
    ensures Read(y, n, [Line(n, text)] + sub + rest, f) == Read(y, n, rest, WithField(f, key, v))
  {
    assert ([Line(n, text)] + sub + rest)[1..] == sub + rest;
  }

  /** What hangs below a header is read back as its data. */
  lemma {:induction false} ReadsBelow(y: Syntax, p: Printer, x: Limits, n: nat, d: Doc, rest: seq<Line>)
    requires Faithful(y, p, x) && Fits(x, d) && !d.Scalar? && !d.Inline? && (rest == [] || rest[0].indent < n)
    ensures Read(y, n, Below(p, n, d) + rest, NOTHING) == (Data(d), rest)
    decreases d, 1
  {
    match d
    case Block(vs) =>
      ReadsItems(y, p, x, n, vs, NOTHING, rest);
      WithItemsIs(NOTHING, vs);
      assert [] + vs == vs;
    case Mapping(fields) =>
      ReadsMapping(y, p, x, n, fields, NOTHING, rest);
    case Records(records) =>
      ReadsRecords(y, p, x, n, records, NOTHING, rest);
      assert [] + RecordData(records) == RecordData(records);
  }

  function Below(p: Printer, n: nat, d: Doc): seq<Line>
    requires !d.Scalar? && !d.Inline?
  {
    match d
    case Block(vs) => ItemLines(p, n, vs)
    case Mapping(fields) => MappingLines(p, n, fields)
    case Records(records) => RecordsLines(p, n, records)
  }

  /** A whole entry is read back, up to the lines that leave it. */
  lemma {:induction false} ReadsEntry(y: Syntax, p: Printer, x: Limits, n: nat, e: Entry, f: Found, rest: seq<Line>)
    requires Faithful(y, p, x) && x.key(e.key) && Fits(x, e.doc) && Leaves(n, rest)
    ensures Read(y, n, EntryLines(p, n, e) + rest, f) == Read(y, n, rest, WithField(f, e.key, Data(e.doc)))
    decreases e, 1
  {
    match e.doc
    case Scalar(v) => ReadsText(y, n, p.field(e.key, p.show(v)), e.key, p.show(v), f, rest);
    case Inline(vs) => ReadsText(y, n, p.field(e.key, p.showInline(vs)), e.key, p.showInline(vs), f, rest);
    case _ =>
      ReadsBelow(y, p, x, n + 2, e.doc, rest);
      ReadsHeader(y, n, p.header(e.key), e.key, Below(p, n + 2, e.doc), Data(e.doc), f, rest);
  }

  lemma {:induction false} ReadsMapping(y: Syntax, p: Printer, x: Limits, n: nat, fields: seq<Entry>, f: Found, rest: seq<Line>)
    requires Faithful(y, p, x) && AllFit(x, fields) && Leaves(n, rest)
    ensures Read(y, n, MappingLines(p, n, fields) + rest, f) == Read(y, n, rest, WithFields(f, fields))
    decreases fields, 0
  {
    if fields == [] {
      assert MappingLines(p, n, fields) + rest == rest;
    } else {
      var more := MappingLines(p, n, fields[1..]) + rest;
      AppendAssoc(EntryLines(p, n, fields[0]), MappingLines(p, n, fields[1..]), rest);
      MappingLeaves(p, n, fields[1..], rest);
      ReadsEntry(y, p, x, n, fields[0], f, more);
      ReadsMapping(y, p, x, n, fields[1..], WithField(f, fields[0].key, Data(fields[0].doc)), rest);
    }
  }

  lemma MappingLeaves(p: Printer, n: nat, fields: seq<Entry>, rest: seq<Line>)
    requires Leaves(n, rest)
    ensures Leaves(n, MappingLines(p, n, fields) + rest)
  {
    if fields == [] { assert MappingLines(p, n, fields) + rest == rest; }
  }

  lemma RecordsLeave(p: Printer, n: nat, records: seq<Record>, rest: seq<Line>)
    requires Leaves(n, rest)
    ensures Leaves(n, RecordsLines(p, n, records) + rest)
  {
    if records == [] { assert RecordsLines(p, n, records) + rest == rest; }
  }

  function WithRecords(f: Found, records: seq<Record>): Found {
    if records == [] then f else f.(items := Some((if f.items.Some? then f.items.value else []) + RecordData(records)))
  }

  lemma {:induction false} ReadsRecord(y: Syntax, p: Printer, x: Limits, n: nat, r: Record, f: Found, rest: seq<Line>)
    requires Faithful(y, p, x) && x.key(r.key) && x.scalar(r.v) && AllFit(x, r.fields) && Leaves(n, rest)
    ensures Read(y, n, RecordLines(p, n, r) + rest, f)
         == Read(y, n, rest, WithItem(f, Obj(map[r.key := r.v] + FieldData(map[], r.fields))))
    decreases r, 1
  {
    ReadsMapping(y, p, x, n + 2, r.fields, NOTHING, rest);
    BlockEnds(y, n + 2, rest, WithFields(NOTHING, r.fields));
    ReadsItemField(y, n, p.itemField(r.key, p.show(r.v)), r.key, p.show(r.v), MappingLines(p, n + 2, r.fields),
                   Result(WithFields(NOTHING, r.fields)), f, rest);
  }

  lemma ReadsItemField(y: Syntax, n: nat, text: string, key: string, shown: string, sub: seq<Line>, w: Json, f: Found, rest: seq<Line>)
    requires y.shape(text) == ItemField(key, shown) && shown != "" && Read(y, n + 2, sub + rest, NOTHING) == (w, rest)
    ensures Read(y, n, [Line(n, text)] + sub + rest, f)
         == Read(y, n, rest, WithItem(f, Obj(map[key := y.scalar(shown)] + if w.Obj? then w.fields else map[])))
  {
    assert ([Line(n, text)] + sub + rest)[1..] == sub + rest;
  }

  lemma {:induction false} ReadsRecords(y: Syntax, p: Printer, x: Limits, n: nat, records: seq<Record>, f: Found, rest: seq<Line>)
    requires Faithful(y, p, x) && RecordsFit(x, records) && Leaves(n, rest)
    ensures Read(y, n, RecordsLines(p, n, records) + rest, f) == Read(y, n, rest, WithRecords(f, records))
    decreases records, 0
  {
    if records == [] {
      assert RecordsLines(p, n, records) + rest == rest;
    } else {
      var r := records[0];
      var item := Obj(map[r.key := r.v] + FieldData(map[], r.fields));
      AppendAssoc(RecordLines(p, n, r), RecordsLines(p, n, records[1..]), rest);
      RecordsLeave(p, n, records[1..], rest);
      ReadsRecord(y, p, x, n, r, f, RecordsLines(p, n, records[1..]) + rest);
      ReadsRecords(y, p, x, n, records[1..], WithItem(f, item), rest);
      AppendAssoc(if f.items.Some? then f.items.value else [], [item], RecordData(records[1..]));
      assert [item] + [] == [item];
    }
  }

  /** Parsing a printed registry gives back its data. */
  lemma RegistryReadsBack(y: Syntax, p: Printer, x: Limits, fields: seq<Entry>)
    requires Faithful(y, p, x) && fields != [] && AllFit(x, fields)
    ensures Read(y, 0, MappingLines(p, 0, fields), NOTHING) == (Data(Mapping(fields)), [])
  {
    assert MappingLines(p, 0, fields) + [] == MappingLines(p, 0, fields);
    ReadsMapping(y, p, x, 0, fields, NOTHING, []);
  }
}
