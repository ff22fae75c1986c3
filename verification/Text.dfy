// String helpers shared by the models.

module Text {
  function Digit(d: nat): char
    requires d < 10
  {
    ['0', '1', '2', '3', '4', '5', '6', '7', '8', '9'][d]
  }

  predicate IsDigit(c: char) {
    '0' <= c <= '9'
  }

  function Decimal(n: nat): (s: string)
    ensures s != ""
  {
    if n < 10 then [Digit(n)] else Decimal(n / 10) + [Digit(n % 10)]
  }

  function DecimalInt(n: int): string {
    if n < 0 then "-" + Decimal(-n) else Decimal(n)
  }

  lemma {:induction false} DecimalInjective(m: nat, n: nat)
    requires Decimal(m) == Decimal(n)
    ensures m == n
  {
    assert |Decimal(m)| == 1 <==> m < 10;
    assert |Decimal(n)| == 1 <==> n < 10;
    assert Decimal(m)[|Decimal(m)| - 1] == Digit(m % 10) && Decimal(n)[|Decimal(n)| - 1] == Digit(n % 10);
    if m >= 10 {
      assert Decimal(m)[..|Decimal(m)| - 1] == Decimal(m / 10);
      assert Decimal(n)[..|Decimal(n)| - 1] == Decimal(n / 10);
      DecimalInjective(m / 10, n / 10);
    }
  }

  /** `str.lower()` on ASCII letters. */
  function Lower(s: string): (r: string)
    ensures |r| == |s|
  {
    seq(|s|, i requires 0 <= i < |s| => if 'A' <= s[i] <= 'Z' then s[i] - 'A' + 'a' else s[i])
  }

  /** Capital letters become small ones, and nothing else changes. */
  lemma LowerIs(s: string, i: nat)
    requires i < |s|
    ensures 'A' <= s[i] <= 'Z' ==> Lower(s)[i] as int == s[i] as int + 32
    ensures !('A' <= s[i] <= 'Z') ==> Lower(s)[i] == s[i]
  {
  }

  /** Python's `needle in hay` */
  predicate Contains(hay: string, needle: string) {
    needle <= hay || (hay != "" && Contains(hay[1..], needle))
  }

  lemma {:induction false} ContainsIs(hay: string, needle: string)
    ensures Contains(hay, needle) <==> exists i :: 0 <= i <= |hay| && needle <= hay[i..]
  {
    if needle <= hay {
      assert hay[0..] == hay;
    } else if hay != "" {
      ContainsIs(hay[1..], needle);
      if i :| 0 <= i <= |hay[1..]| && needle <= hay[1..][i..] { assert hay[1..][i..] == hay[i + 1..]; }
      if i :| 0 < i <= |hay| && needle <= hay[i..] { assert hay[1..][i - 1..] == hay[i..]; }
      assert hay[0..] == hay;
    } else {
      assert forall i :: 0 <= i <= |hay| ==> hay[i..] == hay;
    }
  }

  /** The first position of `c`, or the length if there is none. */
  function IndexOf(s: string, c: char): (i: nat)
    ensures i <= |s| && (i < |s| <==> c in s) && (i < |s| ==> s[i] == c)
    ensures c !in s[..i]
  {
    if s == "" then 0
    else if s[0] == c then 0
    else
      var i := IndexOf(s[1..], c);
      assert s[..i + 1] == [s[0]] + s[1..][..i];
      i + 1
  }

  /** White space and line terminators as `String.prototype.trim` removes them. */
  predicate IsSpace(c: char) {
    '\U{9}' <= c <= '\U{D}' || c == ' ' || c == '\U{A0}' || c == '\U{1680}' || '\U{2000}' <= c <= '\U{200A}'
    || c == '\U{2028}' || c == '\U{2029}' || c == '\U{202F}' || c == '\U{205F}' || c == '\U{3000}' || c == '\U{FEFF}'
  }

  /** White space as Python's `str.strip` removes it. */
  predicate IsPySpace(c: char) {
    (IsSpace(c) && c != '\U{FEFF}') || '\U{1C}' <= c <= '\U{1F}' || c == '\U{85}'
  }

  /** The same sets by code point. */
  lemma SpacesAre(c: char)
    ensures IsSpace(c)
      <==> (9 <= c as int <= 13 || 0x2000 <= c as int <= 0x200A
            || c as int in {32, 0xA0, 0x1680, 0x2028, 0x2029, 0x202F, 0x205F, 0x3000, 0xFEFF})
    ensures IsPySpace(c)
      <==> (9 <= c as int <= 13 || 28 <= c as int <= 31 || 0x2000 <= c as int <= 0x200A
            || c as int in {32, 0x85, 0xA0, 0x1680, 0x2028, 0x2029, 0x202F, 0x205F, 0x3000})
  {
  }

  predicate IsBreak(c: char) {
    c == '\n' || c == '\r'
  }

  predicate Unbroken(s: string) {
    '\n' !in s && '\r' !in s
  }

  function StripLeft(space: char -> bool, s: string): (r: string)
    ensures r == "" || !space(r[0])
  {
    if s != "" && space(s[0]) then StripLeft(space, s[1..]) else s
  }

  function StripRight(space: char -> bool, s: string): (r: string)
    ensures r <= s && (r == "" || !space(r[|r| - 1]))
  {
    if s != "" && space(s[|s| - 1]) then StripRight(space, s[..|s| - 1]) else s
  }

  predicate Stripped(space: char -> bool, s: string) {
    s == "" || (!space(s[0]) && !space(s[|s| - 1]))
  }

  function Strip(space: char -> bool, s: string): (r: string)
    ensures Stripped(space, r)
    ensures Stripped(space, s) ==> r == s
  {
    StripRight(space, StripLeft(space, s))
  }

  lemma {:induction false} StripShortens(space: char -> bool, s: string)
    ensures |StripLeft(space, s)| <= |s| && |Strip(space, s)| <= |s|
  {
    if s != "" && space(s[0]) { StripShortens(space, s[1..]); }
  }

  /** Stripping takes blanks off both ends and nothing else. */
  lemma {:induction false} StripTakesBlanks(space: char -> bool, s: string) returns (left: string, right: string)
    ensures s == left + Strip(space, s) + right
    ensures (forall c :: c in left ==> space(c)) && forall c :: c in right ==> space(c)
  {
    left := LeftBlanks(space, s);
    right := RightBlanks(space, StripLeft(space, s));
    assert s == left + (Strip(space, s) + right);
  }

  lemma {:induction false} LeftBlanks(space: char -> bool, s: string) returns (left: string)
    ensures s == left + StripLeft(space, s) && forall c :: c in left ==> space(c)
  {
    left := "";
    if s != "" && space(s[0]) {
      left := LeftBlanks(space, s[1..]);
      left := [s[0]] + left;
    }
  }

  lemma {:induction false} RightBlanks(space: char -> bool, s: string) returns (right: string)
    ensures s == StripRight(space, s) + right && forall c :: c in right ==> space(c)
  {
    right := "";
    if s != "" && space(s[|s| - 1]) {
      right := RightBlanks(space, s[..|s| - 1]);
      right := right + [s[|s| - 1]];
    }
  }

  /** `s.trim()` */
  function Trim(s: string): (r: string)
    ensures Trimmed(r)
    ensures Trimmed(s) ==> r == s
  {
    Strip(IsSpace, s)
  }

  predicate Trimmed(s: string) {
    Stripped(IsSpace, s)
  }

  /** What comes before the first occurrence of `sub`, or everything. */
  function Before(s: string, sub: string): string {
    if sub <= s || s == "" then "" else [s[0]] + Before(s[1..], sub)
  }

  /** `sep.join(parts)` */
  function Join(sep: char, parts: seq<string>): string {
    if parts == [] then "" else if |parts| == 1 then parts[0] else parts[0] + [sep] + Join(sep, parts[1..])
  }

  /** `text.split(sep)` */
  function Split(sep: char, text: string): seq<string>
    decreases |text|
  {
    var i := IndexOf(text, sep);
    if i == |text| then [text] else [text[..i]] + Split(sep, text[i + 1..])
  }

  lemma {:induction false} IndexOfAppend(a: string, c: char, b: string)
    requires c !in a
    ensures IndexOf(a + [c] + b, c) == |a|
  {
    if a != "" {
      assert a[0] in a && (a + [c] + b)[1..] == a[1..] + [c] + b;
      IndexOfAppend(a[1..], c, b);
    }
  }

  /** Parts free of the separator survive joining and splitting. */
  lemma {:induction false} SplitJoin(sep: char, parts: seq<string>)
    requires parts != [] && forall p :: p in parts ==> sep !in p
    ensures Split(sep, Join(sep, parts)) == parts
  {
    assert parts[0] in parts;
    if |parts| > 1 {
      var rest := Join(sep, parts[1..]);
      SplitJoin(sep, parts[1..]);
      var text := Join(sep, parts);
      assert text == parts[0] + [sep] + rest;
      IndexOfAppend(parts[0], sep, rest);
      assert text[..|parts[0]|] == parts[0] && text[|parts[0]| + 1..] == rest;
    }
  }

  lemma {:induction false} JoinSplit(sep: char, text: string)
    ensures Join(sep, Split(sep, text)) == text
    ensures Split(sep, text) != [] && forall p :: p in Split(sep, text) ==> sep !in p
    decreases |text|
  {
    var i := IndexOf(text, sep);
    if i < |text| {
      JoinSplit(sep, text[i + 1..]);
      assert text == text[..i] + [sep] + text[i + 1..];
    } else {
      assert text[..i] == text;
    }
  }

  lemma {:induction false} JoinAppend(sep: char, a: seq<string>, b: seq<string>)
    ensures a != [] && b != [] ==> Join(sep, a + b) == Join(sep, a) + [sep] + Join(sep, b)
  {
    if |a| > 1 && b != [] {
      JoinAppend(sep, a[1..], b);
      assert (a + b)[1..] == a[1..] + b;
    }
  }
}
