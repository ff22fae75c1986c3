// What each form of line and of scalar in a registry file stands for
// (proxmox-bootstrap/_vault_hierarchy.py:97-221).

module RegistryForms {
  import opened JsonValues
  import opened Options
  import opened RegistryBlocks
  import opened RegistryFile
  import opened RegistryLines
  import opened RegistryText
  import opened Sorting
  import opened Text

  // ---- numerals ----

  predicate AllDigits(s: string) {
    s != "" && forall c :: c in s ==> '0' <= c <= '9'
  }

  function Concat(groups: seq<string>): string {
    if groups == [] then "" else Concat(groups[..|groups| - 1]) + groups[|groups| - 1]
  }

  /** A sign or none, and groups of digits with single underscores between them. */
  ghost predicate Spells(s: string, n: int, sign: string, groups: seq<string>, zeros: string) {
    && (sign == "" || sign == "+" || sign == "-") && groups != [] && (forall g :: g in groups ==> AllDigits(g))
    && s == sign + Join('_', groups)
    && (forall c :: c in zeros ==> c == '0') && Concat(groups) == zeros + Decimal(if n < 0 then -n else n)
    && (if sign == "-" then n <= 0 else n >= 0)
  }

  ghost predicate Denotes(s: string, n: int) {
    exists sign, groups, zeros :: Spells(s, n, sign, groups, zeros)
  }

  lemma {:induction false} ValueFront(a: string, b: string, rest: string)
    requires ValueOfDigits(a) == ValueOfDigits(b)
    ensures ValueOfDigits(a + rest) == ValueOfDigits(b + rest)
  {
    if rest == "" {
      assert a + rest == a && b + rest == b;
    } else {
      var init := rest[..|rest| - 1];
      ValueFront(a, b, init);
      assert (a + rest)[..|a + rest| - 1] == a + init && (b + rest)[..|b + rest| - 1] == b + init;
    }
  }

  lemma {:induction false} ZerosAreNothing(zeros: string, rest: string)
    requires forall c :: c in zeros ==> c == '0'
    ensures ValueOfDigits(zeros + rest) == ValueOfDigits(rest)
  {
    ValueOfZeros(zeros);
    ValueFront(zeros, "", rest);
    assert "" + rest == rest;
  }

  lemma {:induction false} ValueOfZeros(zeros: string)
    requires forall c :: c in zeros ==> c == '0'
    ensures ValueOfDigits(zeros) == 0
  {
    if zeros != "" {
      assert zeros[|zeros| - 1] in zeros;
      var init := zeros[..|zeros| - 1];
      forall c | c in init ensures c == '0' { assert c in zeros; }
      ValueOfZeros(init);
    }
  }

  lemma NumeralAppend(a: string, g: string)
    requires IsNumeral(a) && AllDigits(g)
    ensures IsNumeral(a + "_" + g)
  {
    var s := a + "_" + g;
    forall i | 0 <= i < |s| ensures NumeralAt(s, i) {
      if i < |a| {
        assert NumeralAt(a, i) && s[i] == a[i];
        if i > 0 { assert s[i - 1] == a[i - 1]; }
      } else if i == |a| {
        assert s[i - 1] == a[|a| - 1];
      } else {
        assert s[i] == g[i - |a| - 1] && g[i - |a| - 1] in g;
      }
    }
    assert s[|s| - 1] == g[|g| - 1] && g[|g| - 1] in g;
  }

  lemma {:induction false} GroupsRead(groups: seq<string>)
    requires groups != [] && forall g :: g in groups ==> AllDigits(g)
    ensures IsNumeral(Join('_', groups)) && ValueOfDigits(Join('_', groups)) == ValueOfDigits(Concat(groups))
  {
    var init, g := groups[..|groups| - 1], groups[|groups| - 1];
    assert groups == init + [g] && AllDigits(g);
    if init == [] {
      NumeralOfDigits(g);
      assert Concat(groups) == "" + g == g;
    } else {
      GroupsRead(init);
      JoinAppend('_', init, [g]);
      var a := Join('_', init);
      assert Join('_', groups) == a + "_" + g;
      NumeralAppend(a, g);
      assert (a + "_")[..|a|] == a;
      ValueFront(a + "_", Concat(init), g);
    }
  }

  lemma {:induction false} NumeralGroups(d: string)
    requires IsNumeral(d)
    ensures forall g :: g in Split('_', d) ==> AllDigits(g)
    decreases |d|
  {
    var i := IndexOf(d, '_');
    if i < |d| {
      GroupDigits(d, i);
      AfterGroup(d, i);
      NumeralGroups(d[i + 1..]);
    } else {
      assert d[..i] == d;
      GroupDigits(d, i);
    }
  }

  lemma GroupDigits(d: string, i: nat)
    requires IsNumeral(d) && i <= |d| && '_' !in d[..i] && i > 0
    ensures AllDigits(d[..i])
  {
    forall c | c in d[..i] ensures '0' <= c <= '9' {
      var k :| 0 <= k < i && d[k] == c;
      assert NumeralAt(d, k) && d[..i][k] == c;
    }
  }

  lemma AfterGroup(d: string, i: nat)
    requires IsNumeral(d) && i < |d| && d[i] == '_'
    ensures i + 1 < |d| && IsNumeral(d[i + 1..])
  {
    var t := d[i + 1..];
    assert NumeralAt(d, i + 1);
    forall k | 0 <= k < |t| ensures NumeralAt(t, k) {
      assert NumeralAt(d, i + 1 + k) && t[k] == d[i + 1 + k];
      if k > 0 { assert t[k - 1] == d[i + k]; }
    }
  }

  lemma ValueStep(init: string, c: char)
    requires '0' <= c <= '9'
    ensures ValueOfDigits(init + [c]) == 10 * ValueOfDigits(init) + (c as int - '0' as int)
  {
    assert (init + [c])[..|init|] == init;
  }

  lemma DigitsBefore(d: string)
    requires AllDigits(d)
    ensures '0' <= d[|d| - 1] <= '9' && (|d| > 1 ==> AllDigits(d[..|d| - 1]))
    ensures d == d[..|d| - 1] + [d[|d| - 1]]
  {
    assert d[|d| - 1] in d;
    var init := d[..|d| - 1];
    forall c | c in init ensures '0' <= c <= '9' { assert c in d; }
  }

  lemma {:induction false} LeadingZeros(d: string) returns (zeros: string)
    requires AllDigits(d)
    ensures (forall c :: c in zeros ==> c == '0') && d == zeros + Decimal(ValueOfDigits(d))
  {
    DigitsBefore(d);
    var init, c := d[..|d| - 1], d[|d| - 1];
    ValueStep(init, c);
    if |d| == 1 {
      zeros := "";
      DecimalStep(ValueOfDigits(init), c);
    } else {
      zeros := LeadingZeros(init);
      zeros := OneMoreDigit(init, ValueOfDigits(init), c, zeros);
    }
  }

  lemma OneMoreDigit(init: string, v: nat, c: char, before: string) returns (zeros: string)
    requires '0' <= c <= '9' && (forall x :: x in before ==> x == '0') && init == before + Decimal(v)
    ensures (forall x :: x in zeros ==> x == '0')
    ensures init + [c] == zeros + Decimal(10 * v + (c as int - '0' as int))
  {
    DecimalStep(v, c);
    if v == 0 {
      zeros := before + "0";
      assert Decimal(0) == "0";
    } else {
      zeros := before;
      assert init + [c] == before + (Decimal(v) + [c]);
    }
  }

  lemma DecimalStep(v: nat, c: char)
    requires '0' <= c <= '9'
    ensures Decimal(10 * v + (c as int - '0' as int)) == if v == 0 then [c] else Decimal(v) + [c]
  {
    var k := c as int - '0' as int;
    assert (10 * v + k) / 10 == v && (10 * v + k) % 10 == k;
    assert Digit(k) == c;
  }

  lemma Signed(s: string, sign: string, d: string)
    requires (sign == "" || sign == "+" || sign == "-") && IsNumeral(d) && s == sign + d
    ensures IntOf(s) == Some(if sign == "-" then 0 - ValueOfDigits(d) else ValueOfDigits(d))
  {
    assert IsDigit(d[0]);
    if sign == "" { assert s == d; } else { assert s[0] == sign[0] && s[1..] == d; }
  }

  lemma SpelledValue(groups: seq<string>, zeros: string, k: nat)
    requires groups != [] && (forall g :: g in groups ==> AllDigits(g))
    requires (forall c :: c in zeros ==> c == '0') && Concat(groups) == zeros + Decimal(k)
    ensures IsNumeral(Join('_', groups)) && ValueOfDigits(Join('_', groups)) == k
  {
    GroupsRead(groups);
    ZerosAreNothing(zeros, Decimal(k));
    DigitsReadBack(k);
  }

  lemma DenotedIsRead(s: string, n: int, sign: string, groups: seq<string>, zeros: string)
    requires Spells(s, n, sign, groups, zeros)
    ensures IntOf(s) == Some(n)
  {
    SpelledValue(groups, zeros, if n < 0 then -n else n);
    Signed(s, sign, Join('_', groups));
  }

  lemma SignOf(s: string) returns (sign: string, d: string)
    requires IntOf(s).Some?
    ensures (sign == "" || sign == "+" || sign == "-") && IsNumeral(d) && s == sign + d
  {
    var signed := s[0] == '-' || s[0] == '+';
    sign, d := if signed then s[..1] else "", if signed then s[1..] else s;
  }

  lemma Groups(d: string) returns (groups: seq<string>, zeros: string)
    requires IsNumeral(d)
    ensures groups != [] && (forall g :: g in groups ==> AllDigits(g)) && d == Join('_', groups)
    ensures (forall c :: c in zeros ==> c == '0') && Concat(groups) == zeros + Decimal(ValueOfDigits(d))
  {
    groups := Split('_', d);
    JoinSplit('_', d);
    NumeralGroups(d);
    GroupsRead(groups);
    ConcatDigits(groups);
    zeros := LeadingZeros(Concat(groups));
  }

  lemma ReadIsDenoted(s: string)
    requires IntOf(s).Some?
    ensures Denotes(s, IntOf(s).value)
  {
    var sign, d := SignOf(s);
    var groups, zeros := Groups(d);
    Signed(s, sign, d);
    assert Spells(s, IntOf(s).value, sign, groups, zeros);
  }

  lemma {:induction false} ConcatDigits(groups: seq<string>)
    requires groups != [] && forall g :: g in groups ==> AllDigits(g)
    ensures AllDigits(Concat(groups))
  {
    if |groups| > 1 { ConcatDigits(groups[..|groups| - 1]); }
    assert groups[|groups| - 1] in groups;
  }

  /** A text is read as a number if and only if it spells that number. */
  lemma NumeralsAre(s: string, n: int)
    ensures IntOf(s) == Some(n) <==> Denotes(s, n)
  {
    if IntOf(s) == Some(n) { ReadIsDenoted(s); }
    if sign, groups, zeros :| Spells(s, n, sign, groups, zeros) { DenotedIsRead(s, n, sign, groups, zeros); }
  }

  lemma {:induction false} NoLeadingZero(n: nat)
    ensures n > 0 ==> Decimal(n)[0] != '0'
  {
    if n >= 10 { NoLeadingZero(n / 10); }
  }

  lemma FirstDigit(n: nat)
    requires n > 0
    ensures '1' <= Decimal(n)[0] <= '9'
  {
    NoLeadingZero(n);
    DigitsReadBack(n);
    assert Decimal(n)[0] in Decimal(n);
  }

  /** How a number is written: its value, a minus sign exactly if it is negative, and no zero in front. */
  lemma WrittenNumber(n: int)
    ensures IntOf(DecimalInt(n)) == Some(n)
    ensures n > 0 ==> '1' <= DecimalInt(n)[0] <= '9'
    ensures n < 0 ==> DecimalInt(n)[0] == '-' && '1' <= DecimalInt(n)[1] <= '9'
    ensures DecimalInt(0) == "0"
  {
    IntReadsBack(n);
    if n > 0 { FirstDigit(n); }
    if n < 0 { FirstDigit(-n); }
  }

  // ---- scalars ----

  predicate Between(s: string, open: char, close: char) {
    s != "" && s[0] == open && s[|s| - 1] == close
  }

  /** None of the forms with a meaning of their own. */
  ghost predicate IsText(s: string) {
    && s != "" && s != "{}" && s != "null" && s != "~"
    && !Between(s, '[', ']') && !Between(s, '"', '"') && !Between(s, '\'', '\'')
    && Lower(s) != "true" && Lower(s) != "yes" && Lower(s) != "false" && Lower(s) != "no"
    && ('.' in s || forall n :: !Denotes(s, n))
  }

  lemma QuotedForm(s: string, q: char, t: string)
    requires (q == '"' || q == '\'') && s == [q] + t + [q]
    ensures ParseScalar(s) == Str(t)
  {
    assert s[0] == q && s[|s| - 1] == q && Inside(s) == t;
    assert Stripped(IsPySpace, s) && s != "{}" && s != "null" && s != "~";
  }

  lemma WordForm(s: string)
    requires Stripped(IsPySpace, s)
    ensures Lower(s) == "true" || Lower(s) == "yes" ==> ParseScalar(s) == Bool(true)
    ensures Lower(s) == "false" || Lower(s) == "no" ==> ParseScalar(s) == Bool(false)
  {
    if Lower(s) == "true" || Lower(s) == "yes" || Lower(s) == "false" || Lower(s) == "no" {
      assert 'a' <= Lower(s)[0] <= 'z' && Lower(s)[|s| - 1] != 'l';
      assert s != "{}" && s != "~" && s != "null" && s[0] != '[' && s[0] != '"' && s[0] != '\'';
    }
  }

  lemma NumeralForm(s: string, n: int)
    requires Stripped(IsPySpace, s) && Denotes(s, n) && '.' !in s
    ensures ParseScalar(s) == Int(n)
  {
    NumeralsAre(s, n);
    NumberForm(s);
  }

  lemma NumberForm(s: string)
    requires Stripped(IsPySpace, s) && IntOf(s).Some? && '.' !in s
    ensures ParseScalar(s) == Int(IntOf(s).value)
  {
    assert IsDigit(s[0]) || s[0] == '-' || s[0] == '+';
    assert Lower(s)[0] == s[0];
    assert PlainScalar(s) == Int(IntOf(s).value);
    assert s != "{}" && s != "null" && s != "~" && !Enclosed(s, '[', ']') && !Enclosed(s, '"', '"') && !Enclosed(s, '\'', '\'');
  }

  lemma TextForm(s: string)
    requires Stripped(IsPySpace, s) && IsText(s)
    ensures ParseScalar(s) == Str(s)
  {
    if '.' !in s && IntOf(s).Some? { NumeralsAre(s, IntOf(s).value); }
  }

  /** Every text without blanks around it, form by form. */
  lemma ScalarForms(s: string)
    requires Stripped(IsPySpace, s)
    ensures s == "{}" ==> ParseScalar(s) == Obj(map[])
    ensures s == "" || s == "null" || s == "~" ==> ParseScalar(s) == Null
    ensures s == "[]" ==> ParseScalar(s) == Arr([])
    ensures forall q: char, t :: (q == '"' || q == '\'') && s == [q] + t + [q] ==> ParseScalar(s) == Str(t)
    ensures s == "\"" || s == "'" ==> ParseScalar(s) == Str("")
    ensures Lower(s) == "true" || Lower(s) == "yes" ==> ParseScalar(s) == Bool(true)
    ensures Lower(s) == "false" || Lower(s) == "no" ==> ParseScalar(s) == Bool(false)
    ensures forall n :: '.' !in s && Denotes(s, n) ==> ParseScalar(s) == Int(n)
    ensures IsText(s) ==> ParseScalar(s) == Str(s)
  {
    WordForm(s);
    if s == "[]" { InlineReadsBack([]); assert ShowInline([]) == "[" + "" + "]" == "[]"; }
    forall q: char, t | (q == '"' || q == '\'') && s == [q] + t + [q] ensures ParseScalar(s) == Str(t) { QuotedForm(s, q, t); }
    forall n | '.' !in s && Denotes(s, n) ensures ParseScalar(s) == Int(n) { NumeralForm(s, n); }
    if IsText(s) { TextForm(s); }
  }

  /** Blanks around a scalar do not matter. */
  lemma BlanksAroundScalar(text: string)
    ensures ParseScalar(text) == ParseScalar(PyStrip(text))
  {
  }

  // ---- inline lists ----

  /** Brackets opened and not closed again. */
  function Nesting(s: string): int {
    var opening: int, closing: int := multiset(s)['['] + multiset(s)['{'], multiset(s)[']'] + multiset(s)['}'];
    opening - closing
  }

  /** Every comma is inside brackets. */
  ghost predicate CommasInside(s: string) {
    forall i :: 0 <= i < |s| && s[i] == ',' ==> Nesting(s[..i]) != 0
  }

  lemma NestingStep(s: string, c: char)
    ensures Nesting(s + [c]) == DepthAfter(Nesting(s), c)
  {
    assert multiset(s + [c]) == multiset(s) + multiset{c};
  }

  ghost predicate CommasInsideAfter(before: string, a: string) {
    forall i :: 0 <= i < |a| && a[i] == ',' ==> Nesting(before + a[..i]) != 0
  }

  lemma CommasAfterNext(before: string, a: string)
    requires a != "" && CommasInsideAfter(before, a)
    ensures CommasInsideAfter(before + [a[0]], a[1..]) && (a[0] == ',' ==> Nesting(before) != 0)
  {
    if a[0] == ',' { assert before + a[..0] == before; }
    forall i | 0 <= i < |a[1..]| && a[1..][i] == ',' ensures Nesting(before + [a[0]] + a[1..][..i]) != 0 {
      assert before + [a[0]] + a[1..][..i] == before + a[..i + 1];
    }
  }

  lemma CollectsOne(depth: int, c: char, rest: string, cur: string)
    requires c == ',' ==> depth != 0
    ensures SplitFrom([c] + rest, depth, cur) == SplitFrom(rest, DepthAfter(depth, c), cur + [c])
  {
    assert ([c] + rest)[1..] == rest;
  }

  lemma HeadFirst(before: string, a: string)
    requires a != ""
    ensures before + [a[0]] + a[1..] == before + a
  {
  }

  lemma {:induction false} Collects(before: string, a: string, rest: string, cur: string)
    requires CommasInsideAfter(before, a)
    ensures SplitFrom(a + rest, Nesting(before), cur) == SplitFrom(rest, Nesting(before + a), cur + a)
    decreases |a|
  {
    if a == "" {
      assert a + rest == rest && cur + a == cur && before + a == before;
    } else {
      CommasAfterNext(before, a);
      NestingStep(before, a[0]);
      assert a + rest == [a[0]] + (a[1..] + rest);
      CollectsOne(Nesting(before), a[0], a[1..] + rest, cur);
      Collects(before + [a[0]], a[1..], rest, cur + [a[0]]);
      HeadFirst(cur, a);
      HeadFirst(before, a);
    }
  }

  lemma CollectsPart(a: string, rest: string)
    requires CommasInside(a)
    ensures SplitFrom(a + rest, 0, "") == SplitFrom(rest, Nesting(a), a)
  {
    forall i | 0 <= i < |a| && a[i] == ',' ensures Nesting("" + a[..i]) != 0 { assert "" + a[..i] == a[..i]; }
    assert CommasInsideAfter("", a) && Nesting("") == 0;
    Collects("", a, rest, "");
    assert "" + a == a;
  }

  /** What the pieces between top-level commas give; a blank last piece gives nothing. */
  function Pieces(raws: seq<string>): seq<string>
    requires raws != []
  {
    if |raws| > 1 then [PyStrip(raws[0])] + Pieces(raws[1..])
    else if PyStrip(raws[0]) != "" then [PyStrip(raws[0])]
    else []
  }

  /** Texts that divide at the commas between them and nowhere else. */
  ghost predicate Divides(raws: seq<string>) {
    && raws != [] && (forall r :: r in raws ==> CommasInside(r))
    && forall i :: 0 <= i < |raws| - 1 ==> Nesting(raws[i]) == 0
  }

  lemma DividesOn(raws: seq<string>)
    requires Divides(raws) && |raws| > 1
    ensures Divides(raws[1..]) && CommasInside(raws[0]) && Nesting(raws[0]) == 0
  {
    assert raws[0] in raws && forall r :: r in raws[1..] ==> r in raws;
  }

  lemma {:induction false} SplitIs(raws: seq<string>)
    requires Divides(raws)
    ensures SplitFrom(Join(',', raws), 0, "") == Pieces(raws)
  {
    var a := raws[0];
    assert a in raws;
    if |raws| == 1 {
      CollectsPart(a, "");
      assert a + "" == a;
    } else {
      DividesOn(raws);
      SplitIs(raws[1..]);
      var rest := Join(',', raws[1..]);
      CollectsPart(a, [','] + rest);
      assert a + [','] + rest == a + ([','] + rest);
      assert ([','] + rest)[1..] == rest;
    }
  }

  function Scalars(texts: seq<string>): seq<Json> {
    if texts == [] then [] else [ParseScalar(texts[0])] + Scalars(texts[1..])
  }

  lemma {:induction false} PartsAreScalars(parts: seq<string>, n: nat)
    requires forall p :: p in parts ==> |p| <= n
    ensures ParseParts(parts, n) == Scalars(parts)
  {
    if parts != [] {
      assert parts[0] in parts;
      PartsAreScalars(parts[1..], n);
    }
  }

  /** An inline list holds what the texts between its own commas stand for. */
  lemma ListForm(raws: seq<string>)
    requires Divides(raws) && Stripped(IsPySpace, Join(',', raws))
    ensures ParseScalar("[" + Join(',', raws) + "]") == Arr(Scalars(Pieces(raws)))
  {
    var inner := Join(',', raws);
    SplitIs(raws);
    ReadsBracketed(inner);
    PartsAreShort(inner, 0, "");
    PartsAreScalars(SplitFrom(inner, 0, ""), |inner|);
  }

  // ---- lines ----

  lemma ColonDivides(k: string, rest: string)
    requires ':' !in k
    ensures var text := k + ":" + rest; IndexOf(text, ':') == |k| < |text| && text[..|k|] == k && text[|k| + 1..] == rest
  {
    IndexOfAppend(k, ':', rest);
    assert k + ":" + rest == k + [':'] + rest;
  }

  lemma NoDash(text: string)
    ensures ("- " + text)[2..] == text
  {
  }

  /** A line that is no item: the key ends at its first colon, and without one it says nothing. */
  lemma FieldForm(k: string, rest: string)
    requires ':' !in k
    ensures !("- " <= k + ":" + rest) ==> ShapeOf(k + ":" + rest) == KeyField(PyStrip(k), PyStrip(rest))
    ensures !("- " <= k) ==> ShapeOf(k) == Noise
  {
    ColonDivides(k, rest);
  }

  /** An item that does not begin like a list, a mapping or a quoted text is a field if it has a colon. */
  lemma ItemForm(k: string, rest: string)
    requires ':' !in k
    ensures ShapeOf("- " + k) == ItemValue(k)
    ensures var line := k + ":" + rest;
      ShapeOf("- " + line) == if line[0] in {'[', '{', '"', '\''} then ItemValue(line) else ItemField(PyStrip(k), PyStrip(rest))
  {
    ColonDivides(k, rest);
    NoDash(k);
    NoDash(k + ":" + rest);
  }

  /** A carriage return and a newline together end one line. */
  lemma BothBreaks(body: string, rest: string)
    requires Unbroken(body)
    ensures FileLines(body + ("\r\n" + rest)) == [body + "\n"] + FileLines(rest)
  {
    var tail := "\r\n" + rest;
    var text := body + tail;
    EndOfLine(body, tail);
    assert text[..|body|] == body && text[|body|..] == tail && text[|body| + 2..] == rest;
    StartsCrLf(tail);
  }

  /** The last line need not be ended. */
  lemma UnendedLine(body: string)
    requires Unbroken(body) && body != ""
    ensures FileLines(body) == [body]
  {
    NoEnd(body);
  }

  lemma {:induction false} NoEnd(body: string)
    requires Unbroken(body)
    ensures LineEnd(body) == |body|
  {
    if body != "" {
      assert body[0] in body;
      NoEnd(body[1..]);
    }
  }

  predicate Blank(s: string) {
    forall c :: c in s ==> IsPySpace(c)
  }

  lemma {:induction false} BlankStrips(s: string)
    requires Blank(s)
    ensures StripLeft(IsPySpace, s) == "" && PyStrip(s) == ""
  {
    if s != "" {
      assert s[0] in s;
      BlankStrips(s[1..]);
    }
  }

  /** A blank line says nothing. */
  lemma BlankLine(raw: string)
    requires Blank(raw)
    ensures KeepLine(raw) == []
  {
    BeforeIsPrefix(raw, " #");
    var s := WithoutComment(raw);
    assert s <= raw;
    BlankStrips(s);
  }

  lemma {:induction false} CutAt(a: string, rest: string)
    requires !HasComment(a)
    ensures Before(a + (" #" + rest), " #") == a
  {
    var s := a + (" #" + rest);
    StartsComment(s);
    if a == "" {
      assert s == " #" + rest;
    } else {
      assert s[0] == a[0] && s[1..] == a[1..] + (" #" + rest);
      assert |a| > 1 ==> s[1] == a[1];
      assert |a| == 1 ==> s[1] == ' ';
      forall i | 0 <= i < |a| - 2 ensures !(a[1..][i] == ' ' && a[1..][i + 1] == '#') {
        assert a[1..][i] == a[i + 1] && a[1..][i + 1] == a[i + 2];
      }
      CutAt(a[1..], rest);
    }
  }

  /** Everything from the first blank before a number sign on is left out. */
  lemma CommentIsCut(n: nat, text: string, comment: string)
    requires TextFits(text)
    ensures KeepLine(Blanks(n) + text + (" #" + comment)) == [Line(n, text)]
  {
    var s := Blanks(n) + text;
    BlanksAreBlank(n, text);
    NoCommentInRaw(n, text);
    assert !HasComment(s) by {
      forall i | 0 <= i < |s| - 1 ensures !(s[i] == ' ' && s[i + 1] == '#') {
        var raw := Blanks(n) + (text + "\n");
        assert raw[i] == s[i] && raw[i + 1] == s[i + 1];
      }
    }
    CutAt(s, comment);
    assert StripRight(IsNewline, s) == s;
    LineOfIndented(n, text);
  }

  lemma {:induction false} IndentIs(n: nat, rest: string)
    requires rest == "" || rest[0] != ' '
    ensures IndentOf(Blanks(n) + rest) == n
  {
    if n == 0 {
      assert Blanks(n) + rest == rest;
    } else {
      IndentIs(n - 1, rest);
      assert (Blanks(n) + rest)[1..] == Blanks(n - 1) + rest;
    }
  }

  lemma {:induction false} BlanksStrip(pad: string, text: string)
    requires Blank(pad) && TextFits(text)
    ensures PyStrip(pad + text) == text
  {
    if pad == "" {
      assert pad + text == text;
    } else {
      assert pad[0] in pad && (pad + text)[1..] == pad[1..] + text;
      BlanksStrip(pad[1..], text);
    }
  }

  lemma TabLine(n: nat, text: string)
    requires TextFits(text)
    ensures var s := Blanks(n) + ("\t" + text); PyStrip(s) == text && IndentOf(s) == n && s[|s| - 1] == text[|text| - 1]
  {
    BlanksAreBlank(n, text);
    IndentIs(n, "\t" + text);
    assert Blanks(n) + ("\t" + text) == (Blanks(n) + "\t") + text;
    BlanksStrip(Blanks(n) + "\t", text);
  }

  lemma NothingLeftOut(s: string)
    requires !HasComment(s) && s != "" && !IsNewline(s[|s| - 1])
    ensures WithoutComment(s) == s
  {
    NothingToCut(s);
  }

  /** Only blanks count as indentation: a tab does not, nor what follows it. */
  lemma TabIsNoIndent(n: nat, text: string)
    requires TextFits(text)
    ensures KeepLine(Blanks(n) + ("\t" + text)) == [Line(n, text)]
  {
    TabLine(n, text);
    TabHidesNoComment(n, text);
    NothingLeftOut(Blanks(n) + ("\t" + text));
  }

  lemma TabHidesNoComment(n: nat, text: string)
    requires TextFits(text)
    ensures !HasComment(Blanks(n) + ("\t" + text))
  {
    BlanksAreBlank(n, text);
    BlanksHaveNoComment(Blanks(n));
    CommentFree("\t", text);
    CommentFree(Blanks(n), "\t" + text);
  }

  lemma BlanksHaveNoComment(s: string)
    requires forall c :: c in s ==> c == ' '
    ensures !HasComment(s)
  {
    forall i | 0 <= i < |s| ensures s[i] == ' ' { assert s[i] in s; }
  }

  /** A line that begins with a number sign says nothing, whatever its indent. */
  lemma CommentLine(n: nat, comment: string)
    ensures KeepLine(Blanks(n) + ("#" + comment)) == []
  {
    if n > 0 { IndentedComment(n - 1, comment); } else {
      assert Blanks(0) + ("#" + comment) == "#" + comment;
      UnindentedComment("#" + comment);
    }
  }

  lemma IndentedComment(n: nat, comment: string)
    ensures KeepLine(Blanks(n + 1) + ("#" + comment)) == []
  {
    var before := Blanks(n);
    BlanksAreBlank(n, "#");
    LastBlank(n);
    assert Blanks(n + 1) + ("#" + comment) == before + (" #" + comment);
    forall i | 0 <= i < n ensures before[i] == ' ' { assert before[i] in before; }
    assert !HasComment(before);
    CutAt(before, comment);
    if n > 0 { assert before[n - 1] in before; }
    assert WithoutComment(before + (" #" + comment)) == before;
    BlankStrips(before);
  }

  lemma UnindentedComment(raw: string)
    requires raw != "" && raw[0] == '#'
    ensures KeepLine(raw) == []
  {
    StartsComment(raw);
    var cut := Before(raw, " #");
    assert cut[0] == '#';
    NewlinesKeepFront(cut, 0);
    var s := WithoutComment(raw);
    assert s[0] == '#';
    StripKeepsFront(s, 0);
  }

  lemma {:induction false} LastBlank(n: nat)
    ensures Blanks(n + 1) == Blanks(n) + " "
  {
    if n > 0 { LastBlank(n - 1); }
  }

  // ---- folded texts ----

  lemma {:induction false} FoldedAll(sub: seq<Line>, indent: nat, rest: seq<Line>, texts: seq<string>)
    requires |texts| == |sub| && forall i :: 0 <= i < |sub| ==> sub[i].text == texts[i] != "" && sub[i].indent >= indent
    requires rest == [] || (rest[0].text != "" && rest[0].indent < indent)
    ensures FoldedLength(sub + rest, indent) == |sub| && FoldedText(sub) == texts
  {
    if sub == [] {
      assert sub + rest == rest;
    } else {
      assert (sub + rest)[1..] == sub[1..] + rest;
      FoldedAll(sub[1..], indent, rest, texts[1..]);
    }
  }

  /** The lines below `key: >` or `key: |`, two deeper or more, are one text with single blanks between them. */
  lemma ReadsFolded(y: Syntax, n: nat, header: string, key: string, mark: string, sub: seq<Line>, texts: seq<string>, f: Found, rest: seq<Line>)
    requires y.shape(header) == KeyField(key, mark) && (mark == ">" || mark == "|")
    requires |texts| == |sub| && forall i :: 0 <= i < |sub| ==> sub[i].text == texts[i] != "" && sub[i].indent >= n + 2
    requires rest == [] || (rest[0].text != "" && rest[0].indent < n + 2)
    ensures Read(y, n, [Line(n, header)] + (sub + rest), f) == Read(y, n, rest, WithField(f, key, Str(Join(' ', texts))))
  {
    FoldedAll(sub, n + 2, rest, texts);
    FoldedField(y, n, header, key, mark, sub, f, rest);
  }

  lemma FoldedField(y: Syntax, n: nat, header: string, key: string, mark: string, sub: seq<Line>, f: Found, rest: seq<Line>)
    requires y.shape(header) == KeyField(key, mark) && (mark == ">" || mark == "|")
    requires FoldedLength(sub + rest, n + 2) == |sub|
    ensures Read(y, n, [Line(n, header)] + (sub + rest), f)
         == Read(y, n, rest, WithField(f, key, Str(Join(' ', FoldedText(sub)))))
  {
    var ls := [Line(n, header)] + (sub + rest);
    assert ls[1..] == sub + rest && (sub + rest)[..|sub|] == sub && (sub + rest)[|sub|..] == rest;
  }

  /** A block with items and fields at one indent is the list of its items; the fields are lost. */
  lemma MixedBlock(y: Syntax, n: nat, item: string, v: string, field: string, key: string, w: string)
    requires y.shape(item) == ItemValue(v) && y.shape(field) == KeyField(key, w) && PlainRest(w)
    ensures Read(y, n, [Line(n, item), Line(n, field)], NOTHING).0 == Arr([y.scalar(v)])
  {
    var ls := [Line(n, item), Line(n, field)];
    assert ls[1..] == [Line(n, field)] && ls[1..][1..] == [];
    var f := WithItem(NOTHING, y.scalar(v));
    assert Read(y, n, ls, NOTHING) == Read(y, n, ls[1..], f);
    assert [Line(n, field)] + [] == [Line(n, field)];
    ReadsText(y, n, field, key, w, f, []);
    BlockEnds(y, n, [], WithField(f, key, y.scalar(w)));
  }

  // ---- a whole file ----

  lemma RecordPrinted(r: string, t: string)
    requires IsWord(r) && IsWord(t)
    ensures RecordLines(PRINTER, 2, Record("role", Str(r), [Entry("tier", Scalar(Str(t)))]))
         == [Line(2, "- role: " + r), Line(4, "tier: " + t)]
  {
    OneEntryIndented(4, "tier", Str(t));
    assert "tier" + (": " + t) == "tier: " + t;
    assert "- " + ("role" + (": " + r)) == "- role: " + r;
  }

  lemma OneEntryIndented(n: nat, key: string, v: Json)
    ensures MappingLines(PRINTER, n, [Entry(key, Scalar(v))]) == [Line(n, FieldText(key, Show(v)))]
  {
    var fields := [Entry(key, Scalar(v))];
    assert fields[1..] == [] && MappingLines(PRINTER, n, fields[1..]) == [];
    assert EntryLines(PRINTER, n, fields[0]) == [Line(n, FieldText(key, Show(v)))];
  }

  function RolesDoc(r: string, t: string): seq<Entry> {
    [Entry("roles", Records([Record("role", Str(r), [Entry("tier", Scalar(Str(t)))])]))]
  }

  lemma RolesLines(r: string, t: string)
    requires IsWord(r) && IsWord(t)
    ensures MappingLines(PRINTER, 0, RolesDoc(r, t)) == [Line(0, "roles:"), Line(2, "- role: " + r), Line(4, "tier: " + t)]
  {
    RecordPrinted(r, t);
    var fields := RolesDoc(r, t);
    var records := fields[0].doc.records;
    assert fields[1..] == [] && MappingLines(PRINTER, 0, fields[1..]) == [];
    assert records[1..] == [] && RecordsLines(PRINTER, 2, records[1..]) == [];
    assert RecordsLines(PRINTER, 2, records) == RecordLines(PRINTER, 2, records[0]);
    assert HeaderText("roles") == "roles:";
    assert EntryLines(PRINTER, 0, fields[0]) == [Line(0, "roles:")] + RecordsLines(PRINTER, 2, records);
  }

  lemma ThreeRaw(write: Line -> string, a: Line, b: Line, c: Line)
    ensures RawLines(write, [a, b, c]) == [write(a), write(b), write(c)]
  {
    OneRaw(write, a);
    assert [a, b, c][..2] == [a, b] && [a, b][..1] == [a];
  }

  lemma ThreeTexts(a: string, b: string, c: string)
    ensures FileText([a, b, c]) == a + (b + c)
  {
    OneLineText(c);
    assert [a, b, c][1..] == [b, c] && [b, c][1..] == [c];
  }

  lemma RolesText(r: string, t: string)
    requires IsWord(r) && IsWord(t)
    ensures PrintRegistry(RolesDoc(r, t)) == "roles:\n" + (("  - role: " + r + "\n") + ("    tier: " + t + "\n"))
  {
    RolesLines(r, t);
    var a, b, c := Line(0, "roles:"), Line(2, "- role: " + r), Line(4, "tier: " + t);
    ThreeRaw(RawOf, a, b, c);
    ThreeTexts(RawOf(a), RawOf(b), RawOf(c));
    IndentsAre();
    assert RawOf(a) == "roles:\n";
    assert RawOf(b) == "  - role: " + r + "\n";
    assert RawOf(c) == "    tier: " + t + "\n";
  }

  lemma IndentsAre()
    ensures Blanks(0) == "" && Blanks(2) == "  " && Blanks(4) == "    "
  {
    assert Blanks(1) == " " && Blanks(3) == "   ";
  }

  lemma WordFits(s: string)
    requires IsWord(s)
    ensures Unbroken(s) && !HasComment(s)
  {
    PlainFits(s);
  }

  lemma RolesFit(r: string, t: string)
    requires IsWord(r) && IsWord(t)
    ensures AllFit(LIMITS, RolesDoc(r, t))
  {
    WordFits(r);
    WordFits(t);
    var fields := RolesDoc(r, t);
    var records := fields[0].doc.records;
    var inner := records[0].fields;
    assert inner[1..] == [] && records[1..] == [] && fields[1..] == [];
    assert LIMITS.key("tier") && LIMITS.key("role") && LIMITS.key("roles") && LIMITS.scalar(Str(r)) && LIMITS.scalar(Str(t));
    assert Fits(LIMITS, inner[0].doc) && AllFit(LIMITS, inner);
    assert RecordsFit(LIMITS, records);
    assert Fits(LIMITS, fields[0].doc);
  }

  /** One role of the registry, character by character. */
  lemma RolesFile(r: string, t: string)
    requires IsWord(r) && IsWord(t)
    ensures Loaded("roles:\n" + (("  - role: " + r + "\n") + ("    tier: " + t + "\n")))
         == Obj(map["roles" := Arr([Obj(map["role" := Str(r), "tier" := Str(t)])])])
  {
    RolesText(r, t);
    RolesFit(r, t);
    RegistryRoundTrip(RolesDoc(r, t));
    RolesData(r, t);
  }

  lemma RolesData(r: string, t: string)
    ensures Data(Mapping(RolesDoc(r, t))) == Obj(map["roles" := Arr([Obj(map["role" := Str(r), "tier" := Str(t)])])])
  {
    var fields := RolesDoc(r, t);
    var records := fields[0].doc.records;
    var inner := records[0].fields;
    assert inner[1..] == [] && records[1..] == [] && fields[1..] == [];
    assert FieldData(map[], inner) == map["tier" := Str(t)];
    assert RecordData(records[1..]) == [];
    assert map["role" := Str(r)] + map["tier" := Str(t)] == map["role" := Str(r), "tier" := Str(t)];
    assert RecordData(records) == [Obj(map["role" := Str(r), "tier" := Str(t)])];
    assert FieldData(map[], fields) == map["roles" := Arr(RecordData(records))];
  }
}
