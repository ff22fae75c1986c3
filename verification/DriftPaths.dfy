// Dotted path strings: which addresses share one, and which lie below another.

module DriftPaths {
  import opened JsonValues
  import opened Sorting
  import opened Text

  /** How `_flatten` extends a path. */
  function Extend(prefix: string, step: Step): string {
    match step
    case Field(k) => if prefix != "" then prefix + "." + k else k
    case Item(i) => prefix + "[" + Decimal(i) + "]"
  }

  function PathFrom(prefix: string, loc: seq<Step>): string
    decreases |loc|
  {
    if loc == [] then prefix else PathFrom(Extend(prefix, loc[0]), loc[1..])
  }

  function PathOf(loc: seq<Step>): string {
    PathFrom("", loc)
  }

  predicate CleanKey(k: string) {
    k != "" && '.' !in k && '[' !in k
  }

  ghost predicate Clean(loc: seq<Step>) {
    forall i :: 0 <= i < |loc| && loc[i].Field? ==> CleanKey(loc[i].key)
  }

  // ---- steps written one after the other ----

  function Token(step: Step): string {
    match step
    case Field(k) => "." + k
    case Item(i) => "[" + Decimal(i) + "]"
  }

  /** The steps written with `token`, one after the other. */
  function Written(token: Step -> string, loc: seq<Step>): string
    decreases |loc|
  {
    if loc == [] then "" else token(loc[0]) + Written(token, loc[1..])
  }

  predicate IsDelimiter(c: char) {
    c == '.' || c == '['
  }

  predicate AtDelimiter(s: string) {
    s == "" || IsDelimiter(s[0])
  }

  ghost predicate CleanStep(step: Step) {
    step.Field? ==> CleanKey(step.key)
  }

  /** A written step starts with a delimiter and can be told from whatever follows it. */
  ghost predicate Separable(token: Step -> string) {
    && (forall a :: token(a) != "" && IsDelimiter(token(a)[0]))
    && (forall a, s, b, t :: CleanStep(a) && CleanStep(b) && AtDelimiter(s) && AtDelimiter(t) && token(a) + s == token(b) + t
          ==> a == b && s == t)
  }

  /** Texts that stop at the first position where something holds stop at the same place. */
  lemma SameStop(stops: char -> bool, k: string, s: string, l: string, t: string)
    requires (forall c :: c in k ==> !stops(c)) && (forall c :: c in l ==> !stops(c))
    requires (s == "" || stops(s[0])) && (t == "" || stops(t[0])) && k + s == l + t
    ensures k == l && s == t
  {
    var whole := k + s;
    assert forall i :: 0 <= i < |k| ==> whole[i] == k[i] && k[i] in k;
    assert forall i :: 0 <= i < |l| ==> whole[i] == l[i] && l[i] in l;
    assert |k| < |whole| ==> stops(whole[|k|]);
    assert |l| < |whole| ==> stops(whole[|l|]);
    assert |k| == |l|;
    assert whole[..|k|] == k && (l + t)[..|l|] == l;
    assert whole[|k|..] == s && (l + t)[|l|..] == t;
  }

  lemma {:induction false} DecimalHasNoBracket(n: nat)
    ensures ']' !in Decimal(n)
  {
    if n >= 10 { DecimalHasNoBracket(n / 10); }
  }

  lemma SameIndex(i: nat, s: string, j: nat, t: string)
    requires Decimal(i) + ("]" + s) == Decimal(j) + ("]" + t)
    ensures i == j && s == t
  {
    DecimalHasNoBracket(i);
    DecimalHasNoBracket(j);
    SameStop(c => c == ']', Decimal(i), "]" + s, Decimal(j), "]" + t);
    assert ("]" + s)[1..] == s && ("]" + t)[1..] == t;
    DecimalInjective(i, j);
  }

  lemma TokenTail(a: Step, s: string)
    ensures (Token(a) + s)[0] == if a.Field? then '.' else '['
    ensures (Token(a) + s)[1..] == if a.Field? then a.key + s else Decimal(a.index) + ("]" + s)
  {
  }

  lemma SameStep(a: Step, s: string, b: Step, t: string)
    requires CleanStep(a) && CleanStep(b) && AtDelimiter(s) && AtDelimiter(t) && Token(a) + s == Token(b) + t
    ensures a == b && s == t
  {
    TokenTail(a, s);
    TokenTail(b, t);
    if a.Field? {
      SameStop(IsDelimiter, a.key, s, b.key, t);
    } else {
      SameIndex(a.index, s, b.index, t);
    }
  }

  lemma TokensSeparate()
    ensures Separable(Token)
  {
    forall a, s, b, t | CleanStep(a) && CleanStep(b) && AtDelimiter(s) && AtDelimiter(t) && Token(a) + s == Token(b) + t
      ensures a == b && s == t
    {
      SameStep(a, s, b, t);
    }
  }

  lemma {:induction false} WrittenAppend(token: Step -> string, a: seq<Step>, b: seq<Step>)
    ensures Written(token, a + b) == Written(token, a) + Written(token, b)
  {
    if a == [] {
      assert a + b == b;
    } else {
      WrittenAppend(token, a[1..], b);
      assert (a + b)[0] == a[0] && (a + b)[1..] == a[1..] + b;
      AppendAssoc(token(a[0]), Written(token, a[1..]), Written(token, b));
    }
  }

  lemma WrittenStarts(token: Step -> string, loc: seq<Step>, s: string)
    requires Separable(token) && AtDelimiter(s)
    ensures AtDelimiter(Written(token, loc) + s) && (loc != [] ==> Written(token, loc) != "")
  {
    if loc == [] { assert Written(token, loc) + s == s; }
  }

  /** If the steps of `a`, followed by nothing or a delimiter, start those of `b`, then `a` is a prefix of `b`. */
  lemma {:induction false} WrittenPrefix(token: Step -> string, a: seq<Step>, b: seq<Step>, s: string)
    requires Separable(token) && Clean(a) && Clean(b) && AtDelimiter(s) && Written(token, a) + s == Written(token, b)
    ensures a <= b && s == Written(token, b[|a|..])
  {
    if a == [] {
      assert Written(token, a) + s == s;
    } else {
      var more, rest := Written(token, a[1..]), Written(token, b[1..]);
      assert b != [] by { WrittenStarts(token, a, s); }
      AppendAssoc(token(a[0]), more, s);
      WrittenStarts(token, a[1..], s);
      WrittenStarts(token, b[1..], "");
      assert rest + "" == rest;
      assert CleanStep(a[0]) && CleanStep(b[0]);
      assert token(a[0]) + (more + s) == token(b[0]) + rest;
      WrittenPrefix(token, a[1..], b[1..], s);
      assert b[1..][|a[1..]|..] == b[|a|..];
    }
  }

  // ---- root paths ----

  lemma ExtendIsToken(prefix: string, step: Step)
    requires prefix != "" || step.Item?
    ensures Extend(prefix, step) == prefix + Token(step) && Extend(prefix, step) != ""
  {
    assert step.Field? ==> prefix + "." + step.key == prefix + ("." + step.key);
    assert step.Item? ==> prefix + "[" + Decimal(step.index) + "]" == prefix + ("[" + Decimal(step.index) + "]");
  }

  lemma {:induction false} PathIsWritten(prefix: string, loc: seq<Step>)
    requires prefix != ""
    ensures PathFrom(prefix, loc) == prefix + Written(Token, loc)
    decreases |loc|
  {
    if loc == [] {
      assert prefix + "" == prefix;
    } else {
      ExtendIsToken(prefix, loc[0]);
      PathIsWritten(Extend(prefix, loc[0]), loc[1..]);
      AppendAssoc(prefix, Token(loc[0]), Written(Token, loc[1..]));
    }
  }

  /** A root path is the written steps, without the dot before a leading key. */
  lemma RootIsWritten(loc: seq<Step>)
    requires Clean(loc) && loc != []
    ensures Written(Token, loc) == Dot(loc) + PathOf(loc)
    ensures PathOf(loc) != "" && (loc[0].Item? ==> PathOf(loc)[0] == '[') && (loc[0].Field? ==> !IsDelimiter(PathOf(loc)[0]))
  {
    var first, rest := Extend("", loc[0]), Written(Token, loc[1..]);
    assert CleanStep(loc[0]);
    if loc[0].Field? {
      assert loc[0].key[0] in loc[0].key;
    } else {
      ExtendIsToken("", loc[0]);
      assert "" + Token(loc[0]) == Token(loc[0]);
    }
    PathIsWritten(first, loc[1..]);
    assert Token(loc[0]) == Dot(loc) + first;
    AppendAssoc(Dot(loc), first, rest);
  }

  function Dot(loc: seq<Step>): string {
    if loc != [] && loc[0].Field? then "." else ""
  }

  /** Both root paths start alike or their first steps differ in kind. */
  lemma SameDot(a: seq<Step>, b: seq<Step>, s: string)
    requires Clean(a) && Clean(b) && a != [] && b != []
    ensures PathOf(a) + s == PathOf(b) <==> Written(Token, a) + s == Written(Token, b)
  {
    RootIsWritten(a);
    RootIsWritten(b);
    if PathOf(a) + s == PathOf(b) {
      assert PathOf(a)[0] == PathOf(b)[0];
      AppendAssoc(Dot(a), PathOf(a), s);
    }
    if Written(Token, a) + s == Written(Token, b) {
      assert Written(Token, a)[0] == Written(Token, b)[0];
      FirstIsToken(a);
      FirstIsToken(b);
      AppendAssoc(Dot(a), PathOf(a), s);
      assert (Dot(a) + (PathOf(a) + s))[|Dot(a)|..] == PathOf(a) + s;
      assert (Dot(b) + PathOf(b))[|Dot(b)|..] == PathOf(b);
    }
  }

  lemma FirstIsToken(loc: seq<Step>)
    requires loc != []
    ensures Written(Token, loc) != "" && Written(Token, loc)[0] == if loc[0].Field? then '.' else '['
  {
    TokenTail(loc[0], Written(Token, loc[1..]));
  }

  /** Different addresses have different paths. */
  lemma PathInjective(a: seq<Step>, b: seq<Step>)
    requires Clean(a) && Clean(b) && PathOf(a) == PathOf(b)
    ensures a == b
  {
    if a != [] { RootIsWritten(a); }
    if b != [] { RootIsWritten(b); }
    if a != [] && b != [] {
      TokensSeparate();
      assert PathOf(a) + "" == PathOf(a) && PathOf(b) + "" == PathOf(b);
      SameDot(a, b, "");
      SameDot(b, a, "");
      WrittenPrefix(Token, a, b, "");
      WrittenPrefix(Token, b, a, "");
    }
  }

  /** How doc_field_drift compares a changed path with a mapped one. */
  predicate Matches(changed: string, mapped: string) {
    changed == mapped || mapped + "." <= changed || mapped + "[" <= changed
  }

  /**
   * A changed path matches exactly when it lies at or below the mapped one. The one exception is the
   * empty path, which only matches itself and the items of a top-level list.
   */
  lemma MatchesIffBelow(changed: seq<Step>, mapped: seq<Step>)
    requires Clean(changed) && Clean(mapped)
    ensures Matches(PathOf(changed), PathOf(mapped))
       <==> mapped <= changed && (mapped == [] ==> changed == [] || changed[0].Item?)
  {
    MatchesIffRest(PathOf(changed), PathOf(mapped));
    if mapped == [] {
      if changed != [] { RootIsWritten(changed); }
      MatchesEmpty(PathOf(changed));
    } else if changed == [] {
      RootIsWritten(mapped);
    } else {
      if s :| AtDelimiter(s) && PathOf(changed) == PathOf(mapped) + s {
        SameDot(mapped, changed, s);
        TokensSeparate();
        WrittenPrefix(Token, mapped, changed, s);
      }
      if mapped <= changed { PrefixMatches(changed, mapped); }
    }
  }

  lemma MatchesEmpty(changed: string)
    ensures Matches(changed, "") <==> AtDelimiter(changed)
  {
    assert "" + "." == "." && "" + "[" == "[";
  }

  lemma PrefixMatches(changed: seq<Step>, mapped: seq<Step>)
    requires Clean(changed) && Clean(mapped) && mapped != [] && mapped <= changed
    ensures StartsWithSteps(PathOf(changed), PathOf(mapped))
  {
    var rest := changed[|mapped|..];
    assert changed == mapped + rest;
    WrittenAppend(Token, mapped, rest);
    TokensSeparate();
    WrittenStarts(Token, rest, "");
    assert Written(Token, rest) + "" == Written(Token, rest);
    SameDot(mapped, changed, Written(Token, rest));
  }

  ghost predicate StartsWithSteps(whole: string, start: string) {
    exists s :: AtDelimiter(s) && whole == start + s
  }

  lemma MatchesIffRest(whole: string, start: string)
    ensures Matches(whole, start) <==> StartsWithSteps(whole, start)
  {
    if Matches(whole, start) {
      var s := whole[|start|..];
      assert whole == start + s && AtDelimiter(s);
    }
    if StartsWithSteps(whole, start) {
      var s :| AtDelimiter(s) && whole == start + s;
      assert s != "" ==> whole[..|start| + 1] == start + [s[0]];
    }
  }
}
